/** What each filter of a search does to the ranking, one filter at a time, and which requests are refused (Search and
    catalog in internal/application/application.go). */
module SearchFilters {
  import opened Order
  import opened Discovery
  import opened Search
  import opened Wrappers

  // ---------------------------------------------------------------- a part of a ranking

  /** The part of a ranking whose tools pass, in its order. */
  function Chosen(ranked: seq<Scored>, passes: Tool -> bool): seq<Scored> {
    if ranked == [] then []
    else if passes(ranked[0].tool) then [ranked[0]] + Chosen(ranked[1..], passes)
    else Chosen(ranked[1..], passes)
  }

  predicate Descending(s: seq<Scored>) { forall i, j | 0 <= i < j < |s| :: s[i].score >= s[j].score }

  lemma {:induction false} ChosenFrom(s: seq<Scored>, passes: Tool -> bool)
    ensures forall m | m in Chosen(s, passes) :: m in s
  {
    if s != [] { ChosenFrom(s[1..], passes); }
  }

  lemma ChosenRest(x: Scored, s: seq<Scored>, passes: Tool -> bool)
    ensures Chosen([x] + s, passes) == (if passes(x.tool) then [x] else []) + Chosen(s, passes)
  {
    assert ([x] + s)[1..] == s;
  }

  /** Nothing in the list scores higher, so the new entry goes first. */
  lemma PlacedFirst(x: Scored, s: seq<Scored>)
    requires forall m | m in s :: x.score >= m.score
    ensures Place(x, s) == [x] + s
  {
    if s != [] { assert s[0] in s; }
  }

  lemma {:induction false} ChosenPlace(x: Scored, s: seq<Scored>, passes: Tool -> bool)
    requires Descending(s)
    ensures Chosen(Place(x, s), passes) == if passes(x.tool) then Place(x, Chosen(s, passes)) else Chosen(s, passes)
  {
    if s == [] || x.score >= s[0].score {
      ChosenRest(x, s, passes);
      ChosenFrom(s, passes);
      assert forall m | m in s :: x.score >= m.score;
      PlacedFirst(x, Chosen(s, passes));
    } else {
      ChosenPlace(x, s[1..], passes);
      ChosenRest(s[0], Place(x, s[1..]), passes);
      if passes(s[0].tool) { assert Chosen(s, passes)[1..] == Chosen(s[1..], passes); }
    }
  }

  lemma {:induction false} PlaceDescends(x: Scored, s: seq<Scored>)
    requires Descending(s)
    ensures Descending(Place(x, s)) && forall m | m in Place(x, s) :: m == x || m in s
  {
    if s != [] && x.score < s[0].score {
      PlaceDescends(x, s[1..]);
      var rest := Place(x, s[1..]);
      forall m | m in rest ensures s[0].score >= m.score { }
      assert forall j | 0 <= j < |rest| :: rest[j] in rest;
    }
  }

  lemma {:induction false} SortDescends(s: seq<Scored>)
    ensures Descending(StableSort(s))
  {
    if s != [] {
      SortDescends(s[1..]);
      PlaceDescends(s[0], StableSort(s[1..]));
    }
  }

  /** Choosing before or after a stable sort makes no difference. */
  lemma {:induction false} ChosenSorts(s: seq<Scored>, passes: Tool -> bool)
    ensures Chosen(StableSort(s), passes) == StableSort(Chosen(s, passes))
  {
    if s != [] {
      ChosenSorts(s[1..], passes);
      SortDescends(s[1..]);
      ChosenPlace(s[0], StableSort(s[1..]), passes);
      if passes(s[0].tool) { assert Chosen(s, passes)[1..] == Chosen(s[1..], passes); }
    }
  }

  /** What passes and matches the request `q` is what matches the request `r`. */
  ghost predicate Narrows(w: World, r: Request, v: World, q: Request, c: Codec, passes: Tool -> bool) {
    forall tool :: Match(w, c, r, tool) == if passes(tool) then Match(v, c, q, tool) else None
  }

  lemma {:induction false} NarrowedMatches(w: World, r: Request, v: World, q: Request, c: Codec, passes: Tool -> bool,
                                           ids: seq<string>)
    requires Narrows(w, r, v, q, c, passes) && w.tools == v.tools && forall id | id in ids :: id in w.tools
    ensures Matches(w, c, r, ids) == Chosen(Matches(v, c, q, ids), passes)
  {
    if ids != [] {
      NarrowedMatches(w, r, v, q, c, passes, ids[1..]);
      var tool := w.tools[ids[0]];
      MatchesFirst(w, c, r, ids);
      MatchesFirst(v, c, q, ids);
      var m := Match(v, c, q, tool);
      if m.Some? { ChosenRest(Scored(tool, m.value), Matches(v, c, q, ids[1..]), passes); }
    }
  }

  lemma NarrowedRanking(w: World, r: Request, v: World, q: Request, c: Codec, passes: Tool -> bool)
    requires Narrows(w, r, v, q, c, passes) && w.tools == v.tools
    ensures Ranked(w, c, r) == Chosen(Ranked(v, c, q), passes)
  {
    var ids := Sorted(w.tools.Keys);
    NarrowedMatches(w, r, v, q, c, passes, ids);
    ChosenSorts(Matches(v, c, q, ids), passes);
  }

  // ---------------------------------------------------------------- one filter at a time

  /** With a provider the ranking has its tools only. */
  lemma ProviderNarrows(w: World, c: Codec, r: Request, passes: Tool -> bool)
    requires r.provider != "" && forall tool: Tool :: passes(tool) <==> tool.provider == r.provider
    ensures Ranked(w, c, r) == Chosen(Ranked(w, c, r.(provider := "")), passes)
  {
    NarrowedRanking(w, r, w, r.(provider := ""), c, passes);
  }

  /** With an effect it has the tools of that effect only. */
  lemma EffectNarrows(w: World, c: Codec, r: Request, passes: Tool -> bool)
    requires r.effect != "" && forall tool: Tool :: passes(tool) <==> tool.effect == r.effect
    ensures Ranked(w, c, r) == Chosen(Ranked(w, c, r.(effect := "")), passes)
  {
    NarrowedRanking(w, r, w, r.(effect := ""), c, passes);
  }

  lemma GroupNarrows(w: World, c: Codec, r: Request, passes: Tool -> bool)
    requires r.group != "" && forall tool: Tool :: passes(tool) <==> tool.group == r.group
    ensures Ranked(w, c, r) == Chosen(Ranked(w, c, r.(group := "")), passes)
  {
    NarrowedRanking(w, r, w, r.(group := ""), c, passes);
  }

  /** Some connection of the tool's provider offers it, or with a connection in the request that one does. */
  predicate IsOffered(w: World, connection: string, tool: Tool) {
    exists n | n in w.connections ::
      (connection == "" || n == connection) && w.connections[n] == tool.provider && w.refuses(n, tool).None?
  }

  lemma OfferedExactly(w: World, connection: string, tool: Tool)
    ensures RefusalOf(w, connection, tool).None? <==> IsOffered(w, connection, tool)
  {
    if connection == "" {
      RefusedExactlyWithoutOffer(w, tool);
      if n :| n in w.connections && w.connections[n] == tool.provider && w.refuses(n, tool).None? {
        assert n in NamesFor(w, tool);
      }
      if NamesFor(w, tool) != [] { assert NamesFor(w, tool)[0] in NamesFor(w, tool); }
    }
  }

  /** Unless all tools are asked for it has those only that are offered. */
  lemma OfferNarrows(w: World, c: Codec, r: Request, passes: Tool -> bool)
    requires !r.all && forall tool: Tool :: passes(tool) <==> IsOffered(w, r.connection, tool)
    ensures Ranked(w, c, r) == Chosen(Ranked(w, c, r.(all := true)), passes)
  {
    forall tool ensures RefusalOf(w, r.connection, tool).None? <==> passes(tool) { OfferedExactly(w, r.connection, tool); }
    NarrowedRanking(w, r, w, r.(all := true), c, passes);
  }

  /** Tools scored as for requests that name the connection, whose description then counts alone. */
  function ScoredFor(w: World, connection: string): World {
    w.(relevance := (words: string, _: string, tool: Tool) => w.relevance(words, connection, tool))
  }

  /** With a connection it has the tools of that connection's provider, and unless all are asked for those it offers. */
  lemma ConnectionNarrows(w: World, c: Codec, r: Request, passes: Tool -> bool)
    requires r.connection != "" && r.connection in w.connections
    requires forall tool: Tool :: passes(tool) <==>
               tool.provider == w.connections[r.connection] && (r.all || w.refuses(r.connection, tool).None?)
    ensures Ranked(w, c, r) == Chosen(Ranked(ScoredFor(w, r.connection), c, r.(connection := "", all := true)), passes)
  {
    NarrowedRanking(w, r, ScoredFor(w, r.connection), r.(connection := "", all := true), c, passes);
  }

  /** Without any filter it has every tool in which all words of the query are found, under its score. */
  lemma UnfilteredRanking(w: World, c: Codec, r: Request, m: Scored)
    requires WellFormed(w) && r.all && r.provider == r.group == r.connection == r.effect == ""
    ensures m in Ranked(w, c, r) <==>
            m.tool.id in w.tools && w.tools[m.tool.id] == m.tool && w.relevance(c.words(r.query), "", m.tool) == Some(m.score)
  {
    var ids := Sorted(w.tools.Keys);
    MatchesById(w, c, r, ids);
    StableSortDistinct(Matches(w, c, r, ids));
    MatchedExactly(w, c, r, ids, m);
  }

  lemma {:induction false} MatchedExactly(w: World, c: Codec, r: Request, ids: seq<string>, m: Scored)
    requires WellFormed(w) && forall id | id in ids :: id in w.tools
    ensures m in Matches(w, c, r, ids) <==>
            m.tool.id in ids && w.tools[m.tool.id] == m.tool && Match(w, c, r, m.tool) == Some(m.score)
  {
    if ids != [] {
      assert ids == [ids[0]] + ids[1..];
      MatchedExactly(w, c, r, ids[1..], m);
      MatchesFirst(w, c, r, ids);
    }
  }

  // ---------------------------------------------------------------- cursors and refused requests

  lemma {:induction false} SameFiltersMatchAlike(w: World, c: Codec, r: Request, q: Request, ids: seq<string>)
    requires FiltersOf(c, r) == FiltersOf(c, q) && forall id | id in ids :: id in w.tools
    ensures Matches(w, c, r, ids) == Matches(w, c, q, ids)
  {
    if ids != [] { SameFiltersMatchAlike(w, c, r, q, ids[1..]); }
  }

  /** What a cursor is bound to determines the ranking it continues. */
  lemma SameFiltersRankAlike(w: World, c: Codec, r: Request, q: Request)
    requires FiltersOf(c, r) == FiltersOf(c, q)
    ensures Ranked(w, c, r) == Ranked(w, c, q)
  {
    SameFiltersMatchAlike(w, c, r, q, Sorted(w.tools.Keys));
  }

  /** A filter that names nothing there is. */
  predicate HasUnknownFilter(w: World, r: Request) {
    || (r.effect != "" && r.effect !in ["read", "create", "update", "delete", "execute"])
    || (r.provider != "" && r.provider !in w.groups)
    || (r.group != "" && (r.provider == "" || r.provider !in w.groups || r.group !in w.groups[r.provider]))
    || (r.connection != "" && r.connection !in w.connections)
  }

  /** A cursor that was not made for a match of a search with these filters. */
  ghost predicate HasStrayCursor(w: World, c: Codec, r: Request) {
    r.cursor != "" && forall id | id in RankedIds(w, c, r) :: c.decode(r.cursor) != Some(c.hash(FiltersOf(c, r)) + id)
  }

  lemma {:induction false} PositionExactly(ranked: seq<Scored>, id: string)
    ensures PositionAfter(ranked, id).Some? <==> id in IdsOf(ranked)
    ensures PositionAfter(ranked, id).Some? ==> PositionAfter(ranked, id).value <= |ranked|
  {
    if ranked != [] {
      PositionExactly(ranked[1..], id);
      assert IdsOf(ranked) == [ranked[0].tool.id] + IdsOf(ranked[1..]);
    }
  }

  lemma CursorExactly(w: World, c: Codec, r: Request)
    requires WellFormed(w) && Lawful(c) && r.cursor != ""
    ensures HasStrayCursor(w, c, r) <==> CursorAfter(c, r).None? || CursorAfter(c, r).value !in RankedIds(w, c, r)
  {
    var hash, ids := c.hash(FiltersOf(c, r)), RankedIds(w, c, r);
    RankedIsDistinct(w, c, r);
    forall id | id in ids
      ensures c.decode(r.cursor) == Some(hash + id) <==> CursorAfter(c, r) == Some(id)
    {
      var i :| 0 <= i < |ids| && ids[i] == id;
      assert Ranked(w, c, r)[i] in Ranked(w, c, r);
      HashIsCutOff(hash, id, c.decode(r.cursor));
    }
  }

  lemma HashIsCutOff(hash: string, id: string, decoded: Option<string>)
    requires |hash| == BINDING && id != ""
    ensures decoded == Some(hash + id) <==>
            decoded.Some? && |decoded.value| > BINDING && decoded.value[..BINDING] == hash && decoded.value[BINDING..] == id
  {
    if decoded.Some? && |decoded.value| > BINDING {
      assert decoded.value == decoded.value[..BINDING] + decoded.value[BINDING..];
    }
    assert (hash + id)[..BINDING] == hash && (hash + id)[BINDING..] == id;
  }

  lemma ListedExactly(w: World, c: Codec, r: Request, after: string)
    requires WellFormed(w)
    ensures Listed(w, c, r, after).Invalid? <==> !Answerable(w, r) || (after != "" && after !in RankedIds(w, c, r))
    ensures !Listed(w, c, r, after).Groups?
  {
    PositionExactly(Ranked(w, c, r), after);
  }

  lemma CursorNamesAnId(c: Codec, r: Request)
    requires CursorAfter(c, r).Some?
    ensures CursorAfter(c, r).value == "" <==> r.cursor == ""
  {
  }

  /** A request is refused exactly for a filter that names nothing there is, or a cursor made for something else. */
  lemma RefusedExactly(w: World, c: Codec, r: Request)
    requires WellFormed(w) && Lawful(c)
    ensures Search.Search(w, c, r).Invalid? <==> HasUnknownFilter(w, r) || HasStrayCursor(w, c, r)
  {
    assert Answerable(w, r) <==> !HasUnknownFilter(w, r);
    if r.cursor != "" { CursorExactly(w, c, r); }
    if CursorAfter(c, r).Some? {
      CursorNamesAnId(c, r);
      ListedExactly(w, c, r, CursorAfter(c, r).value);
    }
  }

  /** An answer names groups exactly where a first page would have to list more than 50 tools of a provider that has
      groups, and the request sets neither words, group nor limit. */
  lemma GroupsNamedExactly(w: World, c: Codec, r: Request)
    requires WellFormed(w)
    ensures Search.Search(w, c, r).Groups? <==>
            && !HasUnknownFilter(w, r) && r.cursor == "" && r.limit <= 0 && r.group == "" && c.words(r.query) == ""
            && r.provider != "" && w.groups[r.provider] != [] && |RankedIds(w, c, r)| > 50
  {
    assert Answerable(w, r) <==> !HasUnknownFilter(w, r);
    if CursorAfter(c, r).Some? { ListedExactly(w, c, r, CursorAfter(c, r).value); }
  }

  /** A page has as many matches as the request's limit, 50 where that is not within 1 to 50, or those that are left. */
  lemma PageIsFull(w: World, c: Codec, r: Request, start: nat)
    requires WellFormed(w) && Lawful(c) && Answerable(w, r) && Continues(c, r, Ranked(w, c, r), start)
    requires start == 0 ==> !IsGrouped(w, c, r)
    ensures var size, left := if 1 <= r.limit <= 50 then r.limit else 50, |RankedIds(w, c, r)| - start;
            var answer := Search.Search(w, c, r);
            answer.Listing? && |answer.ids| == if left < size then left else size
  {
    PageIsNext(w, c, r, start);
  }
}
