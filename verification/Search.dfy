/** The bounded search of the tool catalog: filtering, stable ranking, pages that continue by cursor, and groups
    (Search, catalog, groupBy and searchCursor in internal/application/application.go). */
module Search {
  import opened Order
  import opened Discovery
  import opened Wrappers

  const MAX_RESULTS: nat := 50
  const BINDING: nat := 12
  const EFFECTS: set<string> := {"read", "create", "update", "delete", "execute"}

  /** A request whose connection, if any, is already the name of one. */
  datatype Request = Request(query: string, provider: string, group: string, connection: string, effect: string,
                             all: bool, limit: int, cursor: string)

  datatype Scored = Scored(tool: Tool, score: nat)

  /** base64 without padding, the hash of a request's filters, and the words of a query in lower case, joined
      by spaces, which is how the query is matched. */
  datatype Codec = Codec(encode: string -> string, decode: string -> Option<string>, hash: Filters -> string,
                         words: string -> string)

  datatype Filters = Filters(words: string, provider: string, connection: string, effect: string, all: bool,
                             group: string)

  ghost predicate Lawful(c: Codec) {
    (forall x :: c.decode(c.encode(x)) == Some(x)) && (forall x :: x != "" ==> c.encode(x) != "") &&
    (forall f :: |c.hash(f)| == BINDING)
  }

  // ---------------------------------------------------------------- the catalog

  predicate Answerable(w: World, r: Request) {
    && (r.effect != "" ==> r.effect in EFFECTS)
    && (r.provider != "" ==> r.provider in w.groups)
    && (r.group != "" ==> r.provider != "" && r.provider in w.groups && r.group in w.groups[r.provider])
    && (r.connection != "" ==> r.connection in w.connections)
  }

  /** The score of a tool that passes every filter. */
  function Match(w: World, c: Codec, r: Request, tool: Tool): Option<nat> {
    if r.provider != "" && tool.provider != r.provider then None
    else if r.connection != "" && r.connection in w.connections && tool.provider != w.connections[r.connection] then None
    else if r.group != "" && tool.group != r.group then None
    else if !r.all && RefusalOf(w, r.connection, tool).Some? then None
    else if r.effect != "" && tool.effect != r.effect then None
    else w.relevance(c.words(r.query), r.connection, tool)
  }

  /** The matches among the tools `ids`, in that order. */
  function Matches(w: World, c: Codec, r: Request, ids: seq<string>): seq<Scored>
    requires forall id | id in ids :: id in w.tools
  {
    if ids == [] then []
    else
      var m := Match(w, c, r, w.tools[ids[0]]);
      (if m.Some? then [Scored(w.tools[ids[0]], m.value)] else []) + Matches(w, c, r, ids[1..])
  }

  /** `x`, which came first, goes before everything that does not score higher. */
  function Place(x: Scored, s: seq<Scored>): seq<Scored> {
    if s == [] || x.score >= s[0].score then [x] + s else [s[0]] + Place(x, s[1..])
  }

  /** `sort.SliceStable` by descending score. */
  function StableSort(s: seq<Scored>): seq<Scored> {
    if s == [] then [] else Place(s[0], StableSort(s[1..]))
  }

  /** Every match, best first. */
  function Ranked(w: World, c: Codec, r: Request): seq<Scored> {
    StableSort(Matches(w, c, r, Sorted(w.tools.Keys)))
  }

  /** The position after `id`, or the start for no id; None where the id is not listed. */
  function After(ranked: seq<Scored>, id: string): Option<nat> {
    if id == "" then Some(0) else PositionAfter(ranked, id)
  }

  function PositionAfter(ranked: seq<Scored>, id: string): Option<nat> {
    if ranked == [] then None
    else if ranked[0].tool.id == id then Some(1)
    else match PositionAfter(ranked[1..], id) case None => None case Some(n) => Some(n + 1)
  }

  function Slice(ranked: seq<Scored>, start: nat, limit: int): seq<Tool>
    requires start <= |ranked|
    decreases |ranked| - start, limit
  {
    if start == |ranked| || limit == 0 then [] else [ranked[start].tool] + Slice(ranked, start + 1, limit - 1)
  }

  /** `catalog`: None where the request is invalid. A limit of zero or less returns every match. */
  function Catalog(w: World, c: Codec, r: Request, after: string, limit: int): Option<seq<Tool>> {
    if !Answerable(w, r) then None
    else
      match After(Ranked(w, c, r), after)
      case None => None
      case Some(start) =>
        if start <= |Ranked(w, c, r)| then Some(Slice(Ranked(w, c, r), start, if limit > 0 then limit else -1)) else None
  }

  method FindCatalog(w: World, c: Codec, r: Request, after: string, limit: int) returns (tools: Option<seq<Tool>>)
    requires WellFormed(w)
    ensures tools == Catalog(w, c, r, after, limit)
  {
    if !Answerable(w, r) {
      return None;
    }
    var ranked := FindRanked(w, c, r);
    var start := 0;
    if after != "" {
      var found := FindAfter(ranked, after);
      if found.None? {
        return None;
      }
      start := found.value;
    }
    var listed := TakeFrom(ranked, start, limit);
    return Some(listed);
  }

  method FindRanked(w: World, c: Codec, r: Request) returns (ranked: seq<Scored>)
    ensures ranked == Ranked(w, c, r)
  {
    var matches := FindMatches(w, c, r, Sorted(w.tools.Keys));
    ranked := StableSort(matches);
  }

  method FindMatches(w: World, c: Codec, r: Request, ids: seq<string>) returns (matches: seq<Scored>)
    requires forall id | id in ids :: id in w.tools
    ensures matches == Matches(w, c, r, ids)
  {
    matches := [];
    for i := 0 to |ids|
      invariant matches + Matches(w, c, r, ids[i..]) == Matches(w, c, r, ids)
    {
      assert ids[i] in ids;
      MatchesStep(w, c, r, ids, i, matches);
      var one := FindMatch(w, c, r, w.tools[ids[i]]);
      matches := matches + one;
    }
  }

  method FindMatch(w: World, c: Codec, r: Request, tool: Tool) returns (one: seq<Scored>)
    ensures one == MatchOf(w, c, r, tool)
  {
    var m := Match(w, c, r, tool);
    one := if m.Some? then [Scored(tool, m.value)] else [];
  }

  function MatchOf(w: World, c: Codec, r: Request, tool: Tool): seq<Scored> {
    match Match(w, c, r, tool) case None => [] case Some(score) => [Scored(tool, score)]
  }

  lemma MatchesStep(w: World, c: Codec, r: Request, ids: seq<string>, i: nat, before: seq<Scored>)
    requires i < |ids| && forall id | id in ids :: id in w.tools
    ensures before + Matches(w, c, r, ids[i..]) ==
            (before + MatchOf(w, c, r, w.tools[ids[i]])) + Matches(w, c, r, ids[i + 1..])
  {
    assert ids[i..][0] == ids[i] && ids[i..][1..] == ids[i + 1..];
    assert Matches(w, c, r, ids[i..]) == MatchOf(w, c, r, w.tools[ids[i]]) + Matches(w, c, r, ids[i + 1..]);
  }

  method FindAfter(ranked: seq<Scored>, id: string) returns (found: Option<nat>)
    ensures found == PositionAfter(ranked, id) && (found.Some? ==> found.value <= |ranked|)
  {
    for i := 0 to |ranked|
      invariant PositionAfter(ranked, id) ==
                match PositionAfter(ranked[i..], id) case None => None case Some(n) => Some(i + n)
    {
      assert ranked[i..][1..] == ranked[i + 1..];
      if ranked[i].tool.id == id {
        return Some(i + 1);
      }
    }
    return None;
  }

  method TakeFrom(ranked: seq<Scored>, start: nat, limit: int) returns (tools: seq<Tool>)
    requires start <= |ranked|
    ensures tools == Slice(ranked, start, if limit > 0 then limit else -1)
  {
    tools := [];
    ghost var bound := if limit > 0 then limit else -1;
    for i := start to |ranked|
      invariant limit > 0 ==> |tools| <= limit
      invariant |tools| == i - start && tools + Slice(ranked, i, bound - |tools|) == Slice(ranked, start, bound)
    {
      if limit > 0 && |tools| == limit {
        return;
      }
      SliceStep(ranked, i, bound - |tools|, tools);
      tools := tools + [ranked[i].tool];
    }
  }

  lemma SliceStep(ranked: seq<Scored>, i: nat, limit: int, before: seq<Tool>)
    requires i < |ranked| && limit != 0
    ensures before + Slice(ranked, i, limit) == (before + [ranked[i].tool]) + Slice(ranked, i + 1, limit - 1)
  {
  }

  // ---------------------------------------------------------------- the ranking

  /** Better relevance first, and the order of ids within one relevance. */
  predicate Before(a: Scored, b: Scored) {
    a.score > b.score || (a.score == b.score && Less(a.tool.id, b.tool.id))
  }

  predicate InOrder(s: seq<Scored>) { forall i, j | 0 <= i < j < |s| :: Before(s[i], s[j]) }

  predicate ById(s: seq<Scored>) { forall i, j | 0 <= i < j < |s| :: Less(s[i].tool.id, s[j].tool.id) }

  lemma {:induction false} PlaceKeeps(x: Scored, s: seq<Scored>)
    ensures |Place(x, s)| == |s| + 1 && multiset(Place(x, s)) == multiset(s) + multiset{x}
  {
    if !(s == [] || x.score >= s[0].score) {
      PlaceKeeps(x, s[1..]);
      assert s == [s[0]] + s[1..];
    }
  }

  lemma PrependInOrder(x: Scored, s: seq<Scored>)
    requires InOrder(s) && forall y | y in s :: Before(x, y)
    ensures InOrder([x] + s)
  {
    var t := [x] + s;
    forall i, j | 0 <= i < j < |t| ensures Before(t[i], t[j]) {
      if i == 0 { assert t[j] == s[j - 1] && s[j - 1] in s; }
    }
  }

  lemma {:induction false} PlaceInOrder(x: Scored, s: seq<Scored>)
    requires InOrder(s) && forall y | y in s :: Less(x.tool.id, y.tool.id)
    ensures InOrder(Place(x, s))
  {
    if s == [] || x.score >= s[0].score {
      forall y | y in s ensures Before(x, y) {
        var i :| 0 <= i < |s| && s[i] == y;
        if i > 0 { assert Before(s[0], s[i]); }
      }
      PrependInOrder(x, s);
    } else {
      var rest := s[1..];
      assert forall y | y in rest :: y in s;
      PlaceInOrder(x, rest);
      PlaceKeeps(x, rest);
      forall y | y in Place(x, rest) ensures Before(s[0], y) {
        assert y in multiset(Place(x, rest));
        if y != x {
          assert y in multiset(rest);
          var i :| 0 <= i < |rest| && rest[i] == y;
          assert Before(s[0], s[i + 1]);
        }
      }
      PrependInOrder(s[0], Place(x, rest));
    }
  }

  lemma {:induction false} StableSortKeeps(s: seq<Scored>)
    ensures multiset(StableSort(s)) == multiset(s) && |StableSort(s)| == |s|
  {
    if s != [] {
      StableSortKeeps(s[1..]);
      PlaceKeeps(s[0], StableSort(s[1..]));
      assert s == [s[0]] + s[1..];
    }
  }

  /** Sorting tools listed by id stably by score orders them by score, then id. */
  lemma {:induction false} StableSortInOrder(s: seq<Scored>)
    requires ById(s)
    ensures InOrder(StableSort(s))
  {
    if s != [] {
      StableSortInOrder(s[1..]);
      StableSortKeeps(s[1..]);
      forall y | y in StableSort(s[1..]) ensures Less(s[0].tool.id, y.tool.id) {
        assert y in multiset(s[1..]);
        var i :| 0 <= i < |s| - 1 && s[1..][i] == y;
        assert s[i + 1] == y;
      }
      PlaceInOrder(s[0], StableSort(s[1..]));
    }
  }

  lemma {:induction false} MatchesById(w: World, c: Codec, r: Request, ids: seq<string>)
    requires WellFormed(w) && Ascending(ids) && forall id | id in ids :: id in w.tools
    ensures ById(Matches(w, c, r, ids))
    ensures forall m | m in Matches(w, c, r, ids) :: m.tool.id in ids
  {
    if ids != [] {
      assert ids == [ids[0]] + ids[1..];
      MatchesById(w, c, r, ids[1..]);
      var rest := Matches(w, c, r, ids[1..]);
      forall i | 0 <= i < |rest| ensures Less(ids[0], rest[i].tool.id) {
        assert rest[i] in rest;
        var k :| 0 <= k < |ids| - 1 && ids[1..][k] == rest[i].tool.id;
        assert Less(ids[0], ids[k + 1]);
      }
    }
  }

  /** A match is listed exactly when it passes the filters, best first and otherwise by id, each once. */
  lemma RankedIsOrdered(w: World, c: Codec, r: Request)
    requires WellFormed(w)
    ensures InOrder(Ranked(w, c, r))
    ensures forall id | id in w.tools :: Match(w, c, r, w.tools[id]).Some? <==>
              exists m | m in Ranked(w, c, r) :: m.tool.id == id
  {
    var ids := Sorted(w.tools.Keys);
    MatchesById(w, c, r, ids);
    var matches := Matches(w, c, r, ids);
    StableSortInOrder(matches);
    StableSortKeeps(matches);
    forall id | id in w.tools
      ensures Match(w, c, r, w.tools[id]).Some? <==> exists m | m in Ranked(w, c, r) :: m.tool.id == id
    {
      MatchesContain(w, c, r, ids, id);
      assert forall m :: m in Ranked(w, c, r) <==> m in multiset(matches);
      assert forall m :: m in matches <==> m in multiset(matches);
    }
  }

  lemma {:induction false} MatchesContain(w: World, c: Codec, r: Request, ids: seq<string>, id: string)
    requires WellFormed(w) && (forall i | i in ids :: i in w.tools) && id in w.tools && Ascending(ids)
    ensures id in ids && Match(w, c, r, w.tools[id]).Some? <==>
            exists m | m in Matches(w, c, r, ids) :: m.tool.id == id
  {
    if ids != [] {
      assert ids == [ids[0]] + ids[1..];
      MatchesContain(w, c, r, ids[1..], id);
      NotInRest(ids);
      var first := Match(w, c, r, w.tools[ids[0]]);
      if first.Some? {
        assert Matches(w, c, r, ids) == [Scored(w.tools[ids[0]], first.value)] + Matches(w, c, r, ids[1..]);
      } else {
        assert Matches(w, c, r, ids) == Matches(w, c, r, ids[1..]);
      }
    }
  }

  // ---------------------------------------------------------------- distinct ids

  predicate DistinctIds(s: seq<Scored>) { forall i, j | 0 <= i < j < |s| :: s[i].tool.id != s[j].tool.id }

  lemma {:induction false} PlaceDistinct(x: Scored, s: seq<Scored>)
    requires DistinctIds(s) && forall y | y in s :: y.tool.id != x.tool.id
    ensures DistinctIds(Place(x, s))
    ensures forall y :: y in Place(x, s) <==> y in s || y == x
  {
    if s != [] && x.score < s[0].score {
      assert s == [s[0]] + s[1..];
      assert forall y | y in s[1..] :: y in s;
      PlaceDistinct(x, s[1..]);
      var rest := Place(x, s[1..]);
      forall j | 0 <= j < |rest| ensures s[0].tool.id != rest[j].tool.id {
        assert rest[j] in rest;
        if rest[j] != x {
          var k :| 0 <= k < |s| - 1 && s[1..][k] == rest[j];
          assert s[k + 1] == rest[j];
        } else {
          assert s[0] in s;
        }
      }
    }
  }

  lemma {:induction false} StableSortDistinct(s: seq<Scored>)
    requires ById(s)
    ensures DistinctIds(StableSort(s)) && forall y :: y in StableSort(s) <==> y in s
  {
    if s != [] {
      assert s == [s[0]] + s[1..];
      StableSortDistinct(s[1..]);
      forall y | y in StableSort(s[1..]) ensures y.tool.id != s[0].tool.id {
        assert y in s[1..];
        var k :| 0 <= k < |s| - 1 && s[1..][k] == y;
        LessIsIrreflexive(y.tool.id);
        assert Less(s[0].tool.id, s[k + 1].tool.id);
      }
      PlaceDistinct(s[0], StableSort(s[1..]));
    }
  }

  lemma RankedIsDistinct(w: World, c: Codec, r: Request)
    requires WellFormed(w)
    ensures DistinctIds(Ranked(w, c, r)) && forall m | m in Ranked(w, c, r) :: m.tool.id != ""
  {
    var ids := Sorted(w.tools.Keys);
    MatchesById(w, c, r, ids);
    StableSortDistinct(Matches(w, c, r, ids));
  }

  // ---------------------------------------------------------------- pages

  function FiltersOf(c: Codec, r: Request): Filters {
    Filters(c.words(r.query), r.provider, r.connection, r.effect, r.all, r.group)
  }

  /** `searchCursor`. */
  function Cursor(c: Codec, r: Request, last: string): string { c.encode(c.hash(FiltersOf(c, r)) + last) }

  /** `searchCursorAfter`: None for a cursor that is malformed or belongs to other filters. */
  function CursorAfter(c: Codec, r: Request): Option<string> {
    if r.cursor == "" then Some("")
    else match c.decode(r.cursor)
      case None => None
      case Some(decoded) =>
        if |decoded| <= BINDING || decoded[..BINDING] != c.hash(FiltersOf(c, r)) then None
        else Some(decoded[BINDING..])
  }

  function PageSize(limit: int): nat { if limit <= 0 || limit > MAX_RESULTS then MAX_RESULTS else limit }

  datatype Answer =
    | Invalid
    | Listing(ids: seq<string>, hasMore: bool, next: string)
    | Groups(groups: seq<GroupHit>)

  /** A group with the number of its matches and, in a search for all tools, of those some connection offers. */
  datatype GroupHit = GroupHit(group: string, tools: nat, offered: Option<nat>)

  function Ids(tools: seq<Tool>): seq<string> {
    seq(|tools|, i requires 0 <= i < |tools| => tools[i].id)
  }

  function Listed(w: World, c: Codec, r: Request, after: string): Answer {
    var size := PageSize(r.limit);
    match Catalog(w, c, r, after, size + 1)
    case None => Invalid
    case Some(tools) => PageOf(c, r, tools, size)
  }

  /** Whether an answer names groups instead of tools. */
  predicate IsGrouped(w: World, c: Codec, r: Request) {
    r.limit <= 0 && r.cursor == "" && r.provider in w.groups && r.provider != "" && r.group == "" &&
    c.words(r.query) == "" && w.groups[r.provider] != [] && |Ranked(w, c, r)| > MAX_RESULTS
  }

  /** `Search`. */
  function Search(w: World, c: Codec, r: Request): Answer {
    match CursorAfter(c, r)
    case None => Invalid
    case Some(after) =>
      if Answerable(w, r) && IsGrouped(w, c, r) then Groups(GroupsOf(w, c, r)) else Listed(w, c, r, after)
  }

  lemma {:induction false} SliceIsSubsequence(ranked: seq<Scored>, start: nat, n: nat)
    requires start <= |ranked|
    ensures var s := Slice(ranked, start, n);
            |s| == (if start + n <= |ranked| then n else |ranked| - start) &&
            forall i | 0 <= i < |s| :: s[i] == ranked[start + i].tool
    decreases |ranked| - start
  {
    if start < |ranked| && n > 0 { SliceIsSubsequence(ranked, start + 1, n - 1); }
  }

  lemma {:induction false} PositionOf(ranked: seq<Scored>, k: nat)
    requires k < |ranked| && DistinctIds(ranked)
    ensures PositionAfter(ranked, ranked[k].tool.id) == Some(k + 1)
  {
    if k > 0 { PositionOf(ranked[1..], k - 1); }
  }

  function IdsOf(ranked: seq<Scored>): seq<string> {
    seq(|ranked|, i requires 0 <= i < |ranked| => ranked[i].tool.id)
  }

  /** The ids of all matches, best first. */
  function RankedIds(w: World, c: Codec, r: Request): seq<string> { IdsOf(Ranked(w, c, r)) }

  /** Where a request continues in a ranking: at the start without a cursor, and after the match its cursor
      was made for. */
  predicate Continues(c: Codec, r: Request, ranked: seq<Scored>, start: nat) {
    start <= |ranked| &&
    if start == 0 then r.cursor == "" else r.cursor == Cursor(c, r, ranked[start - 1].tool.id)
  }

  lemma OwnCursor(c: Codec, r: Request, last: string)
    requires Lawful(c) && last != "" && r.cursor == Cursor(c, r, last)
    ensures CursorAfter(c, r) == Some(last) && r.cursor != ""
  {
    var bound := c.hash(FiltersOf(c, r)) + last;
    assert bound[..BINDING] == c.hash(FiltersOf(c, r)) && bound[BINDING..] == last;
  }

  lemma ContinuesAfter(c: Codec, r: Request, ranked: seq<Scored>, start: nat)
    requires Lawful(c) && Continues(c, r, ranked, start)
    requires DistinctIds(ranked) && forall m | m in ranked :: m.tool.id != ""
    ensures CursorAfter(c, r).Some? && After(ranked, CursorAfter(c, r).value) == Some(start)
    ensures start > 0 ==> r.cursor != ""
  {
    if start > 0 {
      assert ranked[start - 1] in ranked;
      OwnCursor(c, r, ranked[start - 1].tool.id);
      PositionOf(ranked, start - 1);
    }
  }

  /** The page of `size` entries at `start`. */
  function PageAt(c: Codec, r: Request, all: seq<string>, start: nat, size: nat): Answer
    requires start <= |all| && size > 0
  {
    if start + size < |all| then Listing(all[start..start + size], true, Cursor(c, r, all[start + size - 1]))
    else Listing(all[start..], false, "")
  }

  /** The answer with the tools `catalog` returned for one more than the page. */
  function PageOf(c: Codec, r: Request, tools: seq<Tool>, size: nat): Answer
    requires size > 0
  {
    if |tools| > size then Listing(Ids(tools[..size]), true, Cursor(c, r, tools[size - 1].id))
    else Listing(Ids(tools), false, "")
  }

  lemma SliceIsPage(c: Codec, r: Request, ranked: seq<Scored>, start: nat, size: nat)
    requires start <= |ranked| && size > 0
    ensures PageOf(c, r, Slice(ranked, start, size + 1), size) == PageAt(c, r, IdsOf(ranked), start, size)
  {
    SliceIsSubsequence(ranked, start, size + 1);
    var tools, all := Slice(ranked, start, size + 1), IdsOf(ranked);
    if start + size < |all| {
      assert Ids(tools[..size]) == all[start..start + size];
    } else {
      assert Ids(tools) == all[start..];
    }
  }

  lemma SearchLists(w: World, c: Codec, r: Request, after: string, start: nat)
    requires Answerable(w, r) && !IsGrouped(w, c, r) && CursorAfter(c, r) == Some(after)
    requires After(Ranked(w, c, r), after) == Some(start) && start <= |Ranked(w, c, r)|
    ensures Search(w, c, r) == PageOf(c, r, Slice(Ranked(w, c, r), start, PageSize(r.limit) + 1), PageSize(r.limit))
  {
    var size := PageSize(r.limit);
    assert Catalog(w, c, r, after, size + 1) == Some(Slice(Ranked(w, c, r), start, size + 1));
  }

  /** One page: the next matches of the ranking, whether more follow, and where they do. */
  lemma PageIsNext(w: World, c: Codec, r: Request, start: nat)
    requires WellFormed(w) && Lawful(c) && Answerable(w, r) && Continues(c, r, Ranked(w, c, r), start)
    requires start == 0 ==> !IsGrouped(w, c, r)
    ensures Search(w, c, r) == PageAt(c, r, RankedIds(w, c, r), start, PageSize(r.limit))
  {
    var ranked := Ranked(w, c, r);
    RankedIsDistinct(w, c, r);
    ContinuesAfter(c, r, ranked, start);
    SearchLists(w, c, r, CursorAfter(c, r).value, start);
    SliceIsPage(c, r, ranked, start, PageSize(r.limit));
  }

  /** What a client collects that passes each next_cursor back with the page size it likes, and whether the last
      answer said that nothing follows. */
  function Walk(search: Request -> Answer, r: Request, limits: seq<int>): (seq<string>, bool)
    decreases |limits|
  {
    match search(r)
    case Listing(ids, hasMore, next) =>
      if !hasMore then (ids, true)
      else if limits == [] then (ids, false)
      else
        var (rest, ended) := Walk(search, r.(cursor := next, limit := limits[0]), limits[1..]);
        (ids + rest, ended)
    case _ => ([], false)
  }

  lemma {:induction false} SameMatches(w: World, c: Codec, r: Request, q: Request, ids: seq<string>)
    requires q == r.(cursor := q.cursor, limit := q.limit) && forall id | id in ids :: id in w.tools
    ensures Matches(w, c, r, ids) == Matches(w, c, q, ids)
  {
    if ids != [] { SameMatches(w, c, r, q, ids[1..]); }
  }

  lemma SameRanking(w: World, c: Codec, r: Request, q: Request)
    requires q == r.(cursor := q.cursor, limit := q.limit)
    ensures Ranked(w, c, q) == Ranked(w, c, r) && FiltersOf(c, q) == FiltersOf(c, r)
  {
    SameMatches(w, c, r, q, Sorted(w.tools.Keys));
  }

  function NextRequest(c: Codec, r: Request, last: string, limit: int): Request {
    r.(cursor := Cursor(c, r, last), limit := limit)
  }

  /** Continued at position i of a ranking, a search answers with the page there. */
  predicate ContinuedPage(search: Request -> Answer, c: Codec, r: Request, all: seq<string>, i: nat, limit: int)
    requires 0 < i <= |all|
  {
    var q := NextRequest(c, r, all[i - 1], limit);
    search(q) == PageAt(c, q, all, i, PageSize(limit))
  }

  /** Every continued request of a search answers with the page after its cursor. */
  ghost predicate Pages(search: Request -> Answer, c: Codec, r: Request, all: seq<string>) {
    forall i: nat, limit: int | 0 < i <= |all| :: ContinuedPage(search, c, r, all, i, limit)
  }

  /** The walk from `start` is as promised. */
  predicate WalksWell(all: seq<string>, start: nat, limits: seq<int>, walk: (seq<string>, bool))
    requires start <= |all|
  {
    |walk.0| <= |all| - start && walk.0 == all[start..start + |walk.0|] &&
    (walk.1 <==> start + |walk.0| == |all|) && (|limits| >= |all| - start ==> walk.1)
  }

  lemma LongerWalk(all: seq<string>, start: nat, size: nat, limits: seq<int>, rest: (seq<string>, bool))
    requires size > 0 && start + size < |all| && limits != []
    requires WalksWell(all, start + size, limits[1..], rest)
    ensures WalksWell(all, start, limits, (all[start..start + size] + rest.0, rest.1))
  {
    var ids := all[start..start + size] + rest.0;
    assert ids == all[start..start + |ids|];
  }

  /** One page of a walk. */
  lemma WalkStep(search: Request -> Answer, c: Codec, q: Request, all: seq<string>, start: nat, limits: seq<int>)
    requires start <= |all| && search(q) == PageAt(c, q, all, start, PageSize(q.limit))
    ensures var size, walk := PageSize(q.limit), Walk(search, q, limits);
            if start + size >= |all| then walk == (all[start..], true)
            else if limits == [] then walk == (all[start..start + size], false)
            else
              var rest := Walk(search, q.(cursor := Cursor(c, q, all[start + size - 1]), limit := limits[0]), limits[1..]);
              walk == (all[start..start + size] + rest.0, rest.1)
  {
  }

  lemma {:induction false} WalkFrom(search: Request -> Answer, c: Codec, r: Request, all: seq<string>, q: Request,
                                    start: nat, limits: seq<int>)
    requires Pages(search, c, r, all) && FiltersOf(c, q) == FiltersOf(c, r)
    requires q == r.(cursor := q.cursor, limit := q.limit) && start <= |all|
    requires search(q) == PageAt(c, q, all, start, PageSize(q.limit))
    ensures WalksWell(all, start, limits, Walk(search, q, limits))
    decreases |limits|
  {
    var size := PageSize(q.limit);
    WalkStep(search, c, q, all, start, limits);
    if start + size < |all| && limits != [] {
      var next := NextRequest(c, r, all[start + size - 1], limits[0]);
      assert next == q.(cursor := Cursor(c, q, all[start + size - 1]), limit := limits[0]);
      assert ContinuedPage(search, c, r, all, start + size, limits[0]);
      WalkFrom(search, c, r, all, next, start + size, limits[1..]);
      LongerWalk(all, start, size, limits, Walk(search, next, limits[1..]));
    }
  }

  /** `Search` over one registry and configuration. */
  function Searcher(w: World, c: Codec): Request -> Answer { (q: Request) => Search(w, c, q) }

  lemma ContinuedFrom(w: World, c: Codec, r: Request, q: Request, i: nat)
    requires WellFormed(w) && Lawful(c) && Answerable(w, q) && 0 < i <= |RankedIds(w, c, r)|
    requires q == r.(cursor := q.cursor, limit := q.limit) && q.cursor == Cursor(c, r, RankedIds(w, c, r)[i - 1])
    ensures Search(w, c, q) == PageAt(c, q, RankedIds(w, c, r), i, PageSize(q.limit))
  {
    SameRanking(w, c, r, q);
    StillContinues(c, r, q, Ranked(w, c, q), i);
    PageIsNext(w, c, q, i);
  }

  lemma StillContinues(c: Codec, r: Request, q: Request, ranked: seq<Scored>, i: nat)
    requires FiltersOf(c, q) == FiltersOf(c, r) && 0 < i <= |ranked| && q.cursor == Cursor(c, r, IdsOf(ranked)[i - 1])
    ensures Continues(c, q, ranked, i)
  {
  }

  lemma ContinuedAt(w: World, c: Codec, r: Request, i: nat, limit: int)
    requires WellFormed(w) && Lawful(c) && Answerable(w, r) && 0 < i <= |RankedIds(w, c, r)|
    ensures ContinuedPage(Searcher(w, c), c, r, RankedIds(w, c, r), i, limit)
  {
    ContinuedFrom(w, c, r, NextRequest(c, r, RankedIds(w, c, r)[i - 1], limit), i);
  }

  lemma ContinuedPages(w: World, c: Codec, r: Request, search: Request -> Answer, all: seq<string>)
    requires WellFormed(w) && Lawful(c) && Answerable(w, r)
    requires search == Searcher(w, c) && all == RankedIds(w, c, r)
    ensures Pages(search, c, r, all)
  {
    forall i: nat, limit: int | 0 < i <= |all| ensures ContinuedPage(search, c, r, all, i, limit) {
      ContinuedAt(w, c, r, i, limit);
    }
  }

  /** Following next_cursor from a first answer that lists tools, with any page sizes, collects matches in
      order without gap or repetition, ends, and ends exactly with the last one. */
  lemma WalkCollectsEveryMatchOnce(w: World, c: Codec, r: Request, limits: seq<int>)
    requires WellFormed(w) && Lawful(c) && Answerable(w, r) && r.cursor == "" && !IsGrouped(w, c, r)
    ensures var all, (ids, ended) := RankedIds(w, c, r), Walk(Searcher(w, c), r, limits);
            |ids| <= |all| && ids == all[..|ids|] && (ended <==> ids == all) && (|limits| >= |all| ==> ended)
  {
    var all, search := RankedIds(w, c, r), Searcher(w, c);
    ContinuedPages(w, c, r, search, all);
    PageIsNext(w, c, r, 0);
    WalkFrom(search, c, r, all, r, 0, limits);
    WalkedFromStart(all, limits, Walk(search, r, limits));
  }

  lemma WalkedFromStart(all: seq<string>, limits: seq<int>, walk: (seq<string>, bool))
    requires WalksWell(all, 0, limits, walk)
    ensures |walk.0| <= |all| && walk.0 == all[..|walk.0|] && (walk.1 <==> walk.0 == all) && (|limits| >= |all| ==> walk.1)
  {
    assert all[..|all|] == all;
  }

  /** No match is listed twice. */
  lemma RankedIdsDiffer(w: World, c: Codec, r: Request)
    requires WellFormed(w)
    ensures forall i, j | 0 <= i < j < |RankedIds(w, c, r)| :: RankedIds(w, c, r)[i] != RankedIds(w, c, r)[j]
  {
    RankedIsDistinct(w, c, r);
  }

  /** A cursor is accepted only by a request whose filters have the hash of those it was made for. */
  lemma CursorIsBound(c: Codec, r: Request, q: Request, last: string)
    requires Lawful(c) && last != "" && q.cursor == Cursor(c, r, last)
    ensures CursorAfter(c, q) == if c.hash(FiltersOf(c, q)) == c.hash(FiltersOf(c, r)) then Some(last) else None
  {
    var bound := c.hash(FiltersOf(c, r)) + last;
    assert bound[..BINDING] == c.hash(FiltersOf(c, r)) && bound[BINDING..] == last;
  }

  // ---------------------------------------------------------------- groups

  /** How many of the matches are in the group, and how many of those some connection offers. */
  function InGroup(matches: seq<Scored>, group: string): nat {
    if matches == [] then 0 else InGroup(matches[1..], group) + if matches[0].tool.group == group then 1 else 0
  }

  function OfferedInGroup(w: World, connection: string, matches: seq<Scored>, group: string): nat {
    if matches == [] then 0
    else OfferedInGroup(w, connection, matches[1..], group) +
         if matches[0].tool.group == group && RefusalOf(w, connection, matches[0].tool).None? then 1 else 0
  }

  function HitOfGroup(w: World, r: Request, matches: seq<Scored>, group: string): GroupHit {
    GroupHit(group, InGroup(matches, group),
             if r.all then Some(OfferedInGroup(w, r.connection, matches, group)) else None)
  }

  function GroupHits(w: World, r: Request, matches: seq<Scored>, groups: seq<string>): seq<GroupHit> {
    if groups == [] then []
    else
      (if InGroup(matches, groups[0]) > 0 then [HitOfGroup(w, r, matches, groups[0])] else []) +
      GroupHits(w, r, matches, groups[1..])
  }

  /** The groups with a match, by id. */
  function GroupsOf(w: World, c: Codec, r: Request): seq<GroupHit>
    requires r.provider in w.groups
  {
    GroupHits(w, r, Ranked(w, c, r), Sorted(set g | g in w.groups[r.provider]))
  }

  /** `groupBy`: one pass over the matches counts them all. */
  method GroupBy(w: World, r: Request, matches: seq<Scored>) returns (hits: seq<GroupHit>)
    requires r.provider in w.groups
    ensures hits == GroupHits(w, r, matches, Sorted(set g | g in w.groups[r.provider]))
  {
    var groups := Sorted(set g | g in w.groups[r.provider]);
    var counted := map g | g in groups :: GroupHit(g, 0, if r.all then Some(0) else None);
    NothingCounted(w, r, matches[..0], groups, counted);
    for i := 0 to |matches|
      invariant Counts(w, r, matches[..i], groups, counted)
    {
      var tool := matches[i].tool;
      var refusal := FindRefusal(w, r.connection, tool);
      OneMoreCounted(w, r, matches, i, groups, counted);
      if tool.group in counted {
        counted := counted[tool.group := Counted(counted[tool.group], refusal)];
      }
    }
    CountedAll(w, r, matches, groups, counted);
    hits := KeepMatched(w, r, matches, groups, counted);
  }

  /** The counts of all groups over some matches. */
  ghost predicate Counts(w: World, r: Request, matches: seq<Scored>, groups: seq<string>, counted: map<string, GroupHit>) {
    (forall g :: g in counted <==> g in groups) && forall g | g in groups :: counted[g] == HitOfGroup(w, r, matches, g)
  }

  lemma NothingCounted(w: World, r: Request, none: seq<Scored>, groups: seq<string>, counted: map<string, GroupHit>)
    requires none == [] && counted == map g | g in groups :: GroupHit(g, 0, if r.all then Some(0) else None)
    ensures Counts(w, r, none, groups, counted)
  {
  }

  lemma CountedAll(w: World, r: Request, matches: seq<Scored>, groups: seq<string>, counted: map<string, GroupHit>)
    requires Counts(w, r, matches[..|matches|], groups, counted)
    ensures forall g | g in groups :: g in counted && counted[g] == HitOfGroup(w, r, matches, g)
  {
    assert matches[..|matches|] == matches;
  }

  /** A count after one more match. */
  function Counted(hit: GroupHit, refusal: Option<Refusal>): GroupHit {
    GroupHit(hit.group, hit.tools + 1,
             if hit.offered.Some? then Some(hit.offered.value + if refusal.None? then 1 else 0) else None)
  }

  lemma OneMoreCounted(w: World, r: Request, matches: seq<Scored>, i: nat, groups: seq<string>,
                       counted: map<string, GroupHit>)
    requires i < |matches| && Counts(w, r, matches[..i], groups, counted)
    ensures var g, refusal := matches[i].tool.group, RefusalOf(w, r.connection, matches[i].tool);
            Counts(w, r, matches[..i + 1], groups,
                   if g in counted then counted[g := Counted(counted[g], refusal)] else counted)
  {
    assert matches[..i + 1] == matches[..i] + [matches[i]];
    forall g | g in groups
      ensures HitOfGroup(w, r, matches[..i + 1], g) ==
              if matches[i].tool.group == g then Counted(counted[g], RefusalOf(w, r.connection, matches[i].tool))
              else counted[g]
    {
      OneMoreMatch(w, r, matches[..i], matches[i], g);
    }
  }

  lemma {:induction false} OneMoreInGroup(s: seq<Scored>, x: Scored, group: string)
    ensures InGroup(s + [x], group) == InGroup(s, group) + if x.tool.group == group then 1 else 0
  {
    if s == [] {
      assert s + [x] == [x];
    } else {
      assert (s + [x])[1..] == s[1..] + [x];
      OneMoreInGroup(s[1..], x, group);
    }
  }

  lemma {:induction false} OneMoreOffered(w: World, connection: string, s: seq<Scored>, x: Scored, group: string)
    ensures OfferedInGroup(w, connection, s + [x], group) == OfferedInGroup(w, connection, s, group) +
            if x.tool.group == group && RefusalOf(w, connection, x.tool).None? then 1 else 0
  {
    if s == [] {
      OfferedFirst(w, connection, x, [], group);
      assert s + [x] == [x] + [];
    } else {
      OneMoreOffered(w, connection, s[1..], x, group);
      OfferedFirst(w, connection, s[0], s[1..], group);
      OfferedFirst(w, connection, s[0], s[1..] + [x], group);
      assert s == [s[0]] + s[1..] && s + [x] == [s[0]] + (s[1..] + [x]);
    }
  }

  lemma OneMoreHit(r: Request, group: string, tools: nat, offered: nat, here: bool, refusal: Option<Refusal>)
    ensures var before := GroupHit(group, tools, if r.all then Some(offered) else None);
            GroupHit(group, tools + if here then 1 else 0,
                     if r.all then Some(offered + if here && refusal.None? then 1 else 0) else None) ==
            if here then Counted(before, refusal) else before
  {
  }

  lemma OneMoreMatch(w: World, r: Request, s: seq<Scored>, x: Scored, group: string)
    ensures HitOfGroup(w, r, s + [x], group) ==
            if x.tool.group == group then Counted(HitOfGroup(w, r, s, group), RefusalOf(w, r.connection, x.tool))
            else HitOfGroup(w, r, s, group)
  {
    var tools, offered := InGroup(s, group), OfferedInGroup(w, r.connection, s, group);
    OneMoreInGroup(s, x, group);
    OneMoreOffered(w, r.connection, s, x, group);
    OneMoreHit(r, group, tools, offered, x.tool.group == group, RefusalOf(w, r.connection, x.tool));
  }

  method KeepMatched(w: World, r: Request, ghost matches: seq<Scored>, groups: seq<string>,
                     counted: map<string, GroupHit>) returns (hits: seq<GroupHit>)
    requires forall g | g in groups :: g in counted && counted[g] == HitOfGroup(w, r, matches, g)
    ensures hits == GroupHits(w, r, matches, groups)
  {
    hits := [];
    for i := 0 to |groups|
      invariant hits + GroupHits(w, r, matches, groups[i..]) == GroupHits(w, r, matches, groups)
    {
      assert groups[i] in groups;
      GroupHitsStep(w, r, matches, groups, i, hits);
      if counted[groups[i]].tools > 0 {
        hits := hits + [counted[groups[i]]];
      }
    }
  }

  lemma GroupHitsStep(w: World, r: Request, matches: seq<Scored>, groups: seq<string>, i: nat, before: seq<GroupHit>)
    requires i < |groups|
    ensures var hit := HitOfGroup(w, r, matches, groups[i]);
            before + GroupHits(w, r, matches, groups[i..]) ==
            (if hit.tools > 0 then before + [hit] else before) + GroupHits(w, r, matches, groups[i + 1..])
  {
    assert groups[i..][0] == groups[i] && groups[i..][1..] == groups[i + 1..];
    var hit := HitOfGroup(w, r, matches, groups[i]);
    var rest := GroupHits(w, r, matches, groups[i + 1..]);
    assert GroupHits(w, r, matches, groups[i..]) == (if hit.tools > 0 then [hit] else []) + rest;
  }

  /** The first answer of a search names groups instead of tools where that would be too many of them. */
  method FindGroups(w: World, c: Codec, r: Request) returns (hits: Option<seq<GroupHit>>)
    requires WellFormed(w) && Answerable(w, r)
    ensures hits == if IsGrouped(w, c, r) then Some(GroupsOf(w, c, r)) else None
  {
    if r.limit > 0 || r.cursor != "" || r.provider == "" || r.group != "" || c.words(r.query) != "" ||
       w.groups[r.provider] == [] {
      return None;
    }
    var ranked := FindRanked(w, c, r);
    if |ranked| <= MAX_RESULTS {
      return None;
    }
    var groups := GroupBy(w, r, ranked);
    return Some(groups);
  }

  /** `Search`: one match more than the page holds tells whether more follow. */
  method FindAnswer(w: World, c: Codec, r: Request) returns (a: Answer)
    requires WellFormed(w)
    ensures a == Search(w, c, r)
  {
    var after := CursorAfter(c, r);
    if after.None? || !Answerable(w, r) {
      return Invalid;
    }
    var groups := FindGroups(w, c, r);
    if groups.Some? {
      return Groups(groups.value);
    }
    var size := PageSize(r.limit);
    var tools := FindCatalog(w, c, r, after.value, size + 1);
    if tools.None? {
      return Invalid;
    }
    a := FindPage(c, r, tools.value, size);
  }

  method FindPage(c: Codec, r: Request, tools: seq<Tool>, size: nat) returns (a: Answer)
    requires size > 0
    ensures a == PageOf(c, r, tools, size)
  {
    if |tools| <= size {
      return Listing(Ids(tools), false, "");
    }
    var page := tools[..size];
    return Listing(Ids(page), true, Cursor(c, r, page[size - 1].id));
  }

  lemma {:induction false} PlaceInGroup(x: Scored, s: seq<Scored>, group: string)
    ensures InGroup(Place(x, s), group) == InGroup(s, group) + if x.tool.group == group then 1 else 0
  {
    if !(s == [] || x.score >= s[0].score) { PlaceInGroup(x, s[1..], group); }
  }

  lemma {:induction false} SortInGroup(s: seq<Scored>, group: string)
    ensures InGroup(StableSort(s), group) == InGroup(s, group)
  {
    if s != [] {
      SortInGroup(s[1..], group);
      PlaceInGroup(s[0], StableSort(s[1..]), group);
    }
  }

  lemma {:induction false} PlaceOffered(w: World, connection: string, x: Scored, s: seq<Scored>, group: string)
    ensures OfferedInGroup(w, connection, Place(x, s), group) == OfferedInGroup(w, connection, [x] + s, group)
  {
    if !(s == [] || x.score >= s[0].score) { PlaceOffered(w, connection, x, s[1..], group); }
  }

  lemma {:induction false} SortOffered(w: World, connection: string, s: seq<Scored>, group: string)
    ensures OfferedInGroup(w, connection, StableSort(s), group) == OfferedInGroup(w, connection, s, group)
  {
    if s != [] {
      SortOffered(w, connection, s[1..], group);
      PlaceOffered(w, connection, s[0], StableSort(s[1..]), group);
      assert ([s[0]] + StableSort(s[1..]))[1..] == StableSort(s[1..]);
    }
  }

  lemma MatchInGroup(w: World, c: Codec, r: Request, group: string, tool: Tool)
    requires r.group == "" && group != ""
    ensures Match(w, c, r.(group := group), tool) == if tool.group == group then Match(w, c, r, tool) else None
  {
  }

  lemma MatchOffered(w: World, c: Codec, r: Request, tool: Tool)
    ensures Match(w, c, r.(all := false), tool) ==
            if RefusalOf(w, r.connection, tool).None? then Match(w, c, r.(all := true), tool) else None
  {
  }

  lemma {:induction false} MatchesInGroup(w: World, c: Codec, r: Request, group: string, ids: seq<string>)
    requires r.group == "" && group != "" && forall id | id in ids :: id in w.tools
    ensures |Matches(w, c, r.(group := group), ids)| == InGroup(Matches(w, c, r, ids), group)
  {
    if ids != [] {
      MatchesInGroup(w, c, r, group, ids[1..]);
      MatchInGroup(w, c, r, group, w.tools[ids[0]]);
      MatchesFirst(w, c, r, ids);
      MatchesFirst(w, c, r.(group := group), ids);
    }
  }

  lemma MatchesFirst(w: World, c: Codec, r: Request, ids: seq<string>)
    requires ids != [] && forall id | id in ids :: id in w.tools
    ensures var m := Match(w, c, r, w.tools[ids[0]]);
            Matches(w, c, r, ids) ==
            if m.Some? then [Scored(w.tools[ids[0]], m.value)] + Matches(w, c, r, ids[1..]) else Matches(w, c, r, ids[1..])
  {
  }

  lemma OfferedFirst(w: World, connection: string, x: Scored, s: seq<Scored>, group: string)
    ensures OfferedInGroup(w, connection, [x] + s, group) == OfferedInGroup(w, connection, s, group) +
            if x.tool.group == group && RefusalOf(w, connection, x.tool).None? then 1 else 0
  {
    assert ([x] + s)[1..] == s;
  }

  lemma {:induction false} MatchesOffered(w: World, c: Codec, r: Request, group: string, ids: seq<string>)
    requires r.all && r.group == "" && group != "" && forall id | id in ids :: id in w.tools
    ensures |Matches(w, c, r.(group := group, all := false), ids)| ==
            OfferedInGroup(w, r.connection, Matches(w, c, r, ids), group)
  {
    if ids != [] {
      var tool := w.tools[ids[0]];
      MatchesOffered(w, c, r, group, ids[1..]);
      MatchInGroup(w, c, r, group, tool);
      MatchOffered(w, c, r.(group := group), tool);
      assert r.(group := group).(all := true) == r.(group := group);
      MatchesFirst(w, c, r, ids);
      MatchesFirst(w, c, r.(group := group, all := false), ids);
      var m := Match(w, c, r, tool);
      if m.Some? { OfferedFirst(w, r.connection, Scored(tool, m.value), Matches(w, c, r, ids[1..]), group); }
    }
  }

  /** A group's counts are the lengths of its own listings. */
  lemma GroupCountsItsListing(w: World, c: Codec, r: Request, group: string)
    requires r.group == "" && group != ""
    ensures var hit := HitOfGroup(w, r, Ranked(w, c, r), group);
            hit.tools == |RankedIds(w, c, r.(group := group))| &&
            hit.offered == if r.all then Some(|RankedIds(w, c, r.(group := group, all := false))|) else None
  {
    var ids := Sorted(w.tools.Keys);
    MatchesInGroup(w, c, r, group, ids);
    SortInGroup(Matches(w, c, r, ids), group);
    StableSortKeeps(Matches(w, c, r.(group := group), ids));
    if r.all {
      MatchesOffered(w, c, r, group, ids);
      SortOffered(w, r.connection, Matches(w, c, r, ids), group);
      StableSortKeeps(Matches(w, c, r.(group := group, all := false), ids));
    }
  }

  function Total(hits: seq<GroupHit>): nat { if hits == [] then 0 else hits[0].tools + Total(hits[1..]) }

  function SumOver(matches: seq<Scored>, groups: seq<string>): nat {
    if groups == [] then 0 else InGroup(matches, groups[0]) + SumOver(matches, groups[1..])
  }

  lemma {:induction false} TotalIsSum(w: World, r: Request, matches: seq<Scored>, groups: seq<string>)
    ensures Total(GroupHits(w, r, matches, groups)) == SumOver(matches, groups)
  {
    if groups != [] {
      TotalIsSum(w, r, matches, groups[1..]);
      var rest := GroupHits(w, r, matches, groups[1..]);
      if InGroup(matches, groups[0]) > 0 {
        assert ([HitOfGroup(w, r, matches, groups[0])] + rest)[1..] == rest;
      } else {
        assert GroupHits(w, r, matches, groups) == rest;
      }
    }
  }

  lemma {:induction false} SumStep(matches: seq<Scored>, groups: seq<string>)
    requires matches != [] && Ascending(groups)
    ensures SumOver(matches, groups) ==
            SumOver(matches[1..], groups) + if matches[0].tool.group in groups then 1 else 0
  {
    if groups != [] {
      SumStep(matches, groups[1..]);
      NotInRest(groups);
      assert groups == [groups[0]] + groups[1..];
    }
  }

  lemma {:induction false} SumOfNone(groups: seq<string>)
    ensures SumOver([], groups) == 0
  {
    if groups != [] { SumOfNone(groups[1..]); }
  }

  lemma {:induction false} SumIsAll(matches: seq<Scored>, groups: seq<string>)
    requires Ascending(groups) && forall m | m in matches :: m.tool.group in groups
    ensures SumOver(matches, groups) == |matches|
  {
    if matches == [] {
      SumOfNone(groups);
    } else {
      SumStep(matches, groups);
      SumIsAll(matches[1..], groups);
    }
  }

  lemma {:induction false} MatchesPass(w: World, c: Codec, r: Request, ids: seq<string>)
    requires forall id | id in ids :: id in w.tools
    ensures forall m | m in Matches(w, c, r, ids) :: Match(w, c, r, m.tool) == Some(m.score)
    ensures forall m | m in Matches(w, c, r, ids) :: m.tool in w.tools.Values
  {
    if ids != [] {
      MatchesPass(w, c, r, ids[1..]);
      MatchesFirst(w, c, r, ids);
    }
  }

  lemma GroupsOfProvider(w: World, c: Codec, r: Request, m: Scored)
    requires WellFormed(w) && r.provider in w.groups && r.provider != "" && w.groups[r.provider] != []
    requires m.tool in w.tools.Values && Match(w, c, r, m.tool).Some?
    ensures m.tool.group in w.groups[r.provider]
  {
  }

  /** Together the groups of an answer hold every match, so no tool is lost by listing groups first. */
  lemma GroupsHoldEveryMatch(w: World, c: Codec, r: Request)
    requires WellFormed(w) && Answerable(w, r) && IsGrouped(w, c, r)
    ensures Total(GroupsOf(w, c, r)) == |RankedIds(w, c, r)|
  {
    var ids, groups := Sorted(w.tools.Keys), Sorted(set g | g in w.groups[r.provider]);
    var ranked, matches := Ranked(w, c, r), Matches(w, c, r, ids);
    MatchesPass(w, c, r, ids);
    StableSortKeeps(matches);
    forall m | m in ranked ensures m.tool.group in groups {
      assert m in multiset(matches);
      GroupsOfProvider(w, c, r, m);
    }
    TotalIsSum(w, r, ranked, groups);
    SumIsAll(ranked, groups);
  }

  /** The groups of an answer are named by id, each at most once, and exactly those with a match. */
  lemma {:induction false} GroupsAscend(w: World, r: Request, matches: seq<Scored>, groups: seq<string>)
    requires Ascending(groups)
    ensures var hits := GroupHits(w, r, matches, groups);
            (forall i, j | 0 <= i < j < |hits| :: Less(hits[i].group, hits[j].group)) &&
            (forall i | 0 <= i < |hits| :: hits[i].group in groups && hits[i] == HitOfGroup(w, r, matches, hits[i].group)) &&
            forall g | g in groups :: InGroup(matches, g) > 0 <==> HitOfGroup(w, r, matches, g) in hits
  {
    if groups != [] {
      assert groups == [groups[0]] + groups[1..];
      GroupsAscend(w, r, matches, groups[1..]);
      var rest := GroupHits(w, r, matches, groups[1..]);
      forall i | 0 <= i < |rest| ensures Less(groups[0], rest[i].group) {
        var k :| 0 <= k < |groups| - 1 && groups[1..][k] == rest[i].group;
        assert Less(groups[0], groups[k + 1]);
      }
    }
  }
}
