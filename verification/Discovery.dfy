/** Which connections offer a tool, why none does, and how an answer says so (refusal, connectionNamesFor, hits
    and groupBy in internal/application/application.go, checkGroups in internal/capability/capability.go). */
module Discovery {
  import opened Order
  import opened Wrappers

  datatype Refusal =
    | TargetsOutdated | Switched | NotInToolsList | NeedsAllowList | NoLocalFiles | EffectNotPermitted | OutsideTargets
    | NoConnection | OtherProvider

  /** The lower, the closer a connection is to offering the tool. */
  function Rank(r: Refusal): nat {
    match r
    case TargetsOutdated => 0
    case Switched => 1
    case NotInToolsList => 2
    case NeedsAllowList => 3
    case NoLocalFiles => 4
    case EffectNotPermitted => 5
    case OutsideTargets => 6
    case _ => 7
  }

  datatype Tool = Tool(id: string, provider: string, group: string, effect: string)

  /** The registry, the configuration and the clock of one request. `connections` gives the provider of each
      connection, `refuses` the configuration's own rule for a connection and a tool of its provider,
      `relevance` the score of a tool for a query, if every term of it is found. */
  datatype World = World(
    tools: map<string, Tool>,
    groups: map<string, seq<string>>,
    connections: map<string, string>,
    refuses: (string, Tool) -> Option<Refusal>,
    relevance: (string, string, Tool) -> Option<nat>)

  predicate Name(s: string) { s != "" && ' ' !in s }

  /** What registration and configuration guarantee. */
  predicate WellFormed(w: World) {
    && (forall id | id in w.tools :: id != "" && w.tools[id].id == id && w.tools[id].provider in w.groups)
    && (forall c | c in w.connections :: Name(c))
    && (forall id | id in w.tools ::
          var groups := w.groups[w.tools[id].provider];
          if groups == [] then w.tools[id].group == "" else w.tools[id].group in groups)
    && (forall p | p in w.groups :: forall i, j | 0 <= i < j < |w.groups[p]| :: w.groups[p][i] != w.groups[p][j])
    && (forall p | p in w.groups :: "" !in w.groups[p])
  }

  // ---------------------------------------------------------------- refusals

  function NamesOf(w: World, provider: string): seq<string> {
    Sorted(set c | c in w.connections && w.connections[c] == provider)
  }

  /** `connectionNamesFor`. */
  function NamesFor(w: World, tool: Tool): seq<string> {
    Sorted(set c | c in w.connections && w.connections[c] == tool.provider && w.refuses(c, tool).None?)
  }

  function Scan(w: World, names: seq<string>, tool: Tool, closest: Refusal): Option<Refusal> {
    if names == [] then Some(closest)
    else match w.refuses(names[0], tool)
      case None => None
      case Some(r) => Scan(w, names[1..], tool, if Rank(r) < Rank(closest) then r else closest)
  }

  /** Why the catalog of a request does not offer a tool; None when it does. */
  function RefusalOf(w: World, connection: string, tool: Tool): Option<Refusal> {
    if connection != "" then
      if connection !in w.connections then Some(NoConnection)
      else if w.connections[connection] != tool.provider then Some(OtherProvider)
      else w.refuses(connection, tool)
    else if NamesOf(w, tool.provider) == [] then Some(NoConnection)
    else Scan(w, NamesOf(w, tool.provider), tool, OutsideTargets)
  }

  /** `refusal`. */
  method FindRefusal(w: World, connection: string, tool: Tool) returns (r: Option<Refusal>)
    ensures r == RefusalOf(w, connection, tool)
  {
    if connection != "" {
      if connection !in w.connections {
        return Some(NoConnection);
      }
      if w.connections[connection] != tool.provider {
        return Some(OtherProvider);
      }
      return w.refuses(connection, tool);
    }
    var names := NamesOf(w, tool.provider);
    if |names| == 0 {
      return Some(NoConnection);
    }
    var closest := OutsideTargets;
    for i := 0 to |names|
      invariant Scan(w, names[i..], tool, closest) == Scan(w, names, tool, OutsideTargets)
    {
      var reason := w.refuses(names[i], tool);
      assert names[i..][0] == names[i] && names[i..][1..] == names[i + 1..];
      if reason.None? {
        return None;
      }
      if Rank(reason.value) < Rank(closest) {
        closest := reason.value;
      }
    }
    return Some(closest);
  }

  lemma {:induction false} ScanMeans(w: World, names: seq<string>, tool: Tool, closest: Refusal)
    ensures Scan(w, names, tool, closest).None? <==> exists n | n in names :: w.refuses(n, tool).None?
    ensures var r := Scan(w, names, tool, closest);
            r.Some? ==> Rank(r.value) <= Rank(closest) &&
                        (r.value == closest || exists n | n in names :: w.refuses(n, tool) == r)
    ensures var r := Scan(w, names, tool, closest);
            r.Some? ==> forall n | n in names :: Rank(r.value) <= Rank(w.refuses(n, tool).value)
  {
    if names != [] {
      assert names == [names[0]] + names[1..];
      var first := w.refuses(names[0], tool);
      if first.Some? {
        ScanMeans(w, names[1..], tool, if Rank(first.value) < Rank(closest) then first.value else closest);
      } else {
        assert names[0] in names;
      }
    }
  }

  /** Without a connection filter a tool is refused exactly when no connection offers it. */
  lemma RefusedExactlyWithoutOffer(w: World, tool: Tool)
    ensures RefusalOf(w, "", tool).None? <==> NamesFor(w, tool) != []
  {
    var names := NamesOf(w, tool.provider);
    ScanMeans(w, names, tool, OutsideTargets);
    if NamesFor(w, tool) != [] {
      assert NamesFor(w, tool)[0] in NamesFor(w, tool);
      assert NamesFor(w, tool)[0] in names;
    }
    if n :| n in names && w.refuses(n, tool).None? {
      assert n in NamesFor(w, tool);
    }
  }

  /** The reason given is that of a connection no other comes closer than, so it names the smallest change. */
  lemma ReasonIsClosest(w: World, tool: Tool)
    requires forall c | c in w.connections :: w.refuses(c, tool).Some? ==> Rank(w.refuses(c, tool).value) < 7
    requires NamesOf(w, tool.provider) != [] && NamesFor(w, tool) == []
    ensures var r := RefusalOf(w, "", tool);
            r.Some? && (exists n | n in NamesOf(w, tool.provider) :: w.refuses(n, tool) == r) &&
            forall n | n in NamesOf(w, tool.provider) :: Rank(r.value) <= Rank(w.refuses(n, tool).value)
  {
    RefusedExactlyWithoutOffer(w, tool);
    var names := NamesOf(w, tool.provider);
    ScanMeans(w, names, tool, OutsideTargets);
    var r := RefusalOf(w, "", tool);
    if r == Some(OutsideTargets) {
      assert names[0] in names;
      assert w.refuses(names[0], tool) == r;
    }
  }

  /** The reasons a connection of the tool's provider can give, the closest to an offer first. */
  const CLOSEST_FIRST: seq<Refusal> := [TargetsOutdated, Switched, NotInToolsList, NeedsAllowList, NoLocalFiles,
                                        EffectNotPermitted, OutsideTargets]

  lemma RankIsPlace(r: Refusal)
    requires r in CLOSEST_FIRST
    ensures Rank(r) < |CLOSEST_FIRST| && CLOSEST_FIRST[Rank(r)] == r
  {
  }

  lemma PlaceIsRank(i: nat)
    requires i < |CLOSEST_FIRST|
    ensures Rank(CLOSEST_FIRST[i]) == i
  {
  }

  /** Some connection of the tool's provider gives this reason. */
  predicate IsGiven(w: World, tool: Tool, r: Refusal) {
    exists n | n in NamesOf(w, tool.provider) :: w.refuses(n, tool) == Some(r)
  }

  /** So a reason is told exactly if some connection gives it and none gives one further ahead in that list. */
  lemma ReasonIsFirst(w: World, tool: Tool, j: nat)
    requires forall c | c in w.connections :: w.refuses(c, tool).Some? ==> w.refuses(c, tool).value in CLOSEST_FIRST
    requires NamesOf(w, tool.provider) != [] && NamesFor(w, tool) == [] && j < |CLOSEST_FIRST|
    ensures RefusalOf(w, "", tool) == Some(CLOSEST_FIRST[j]) <==>
            IsGiven(w, tool, CLOSEST_FIRST[j]) && forall i | 0 <= i < j :: !IsGiven(w, tool, CLOSEST_FIRST[i])
  {
    forall c | c in w.connections && w.refuses(c, tool).Some? ensures Rank(w.refuses(c, tool).value) < 7 {
      RankIsPlace(w.refuses(c, tool).value);
    }
    ReasonIsClosest(w, tool);
    GivenIsNoCloser(w, tool);
    var r := RefusalOf(w, "", tool).value;
    assert IsGiven(w, tool, r);
    RankIsPlace(r);
    PlaceIsRank(j);
    forall i | 0 <= i < j && IsGiven(w, tool, CLOSEST_FIRST[i]) ensures Rank(r) <= i { PlaceIsRank(i); }
  }

  lemma GivenIsNoCloser(w: World, tool: Tool)
    requires RefusalOf(w, "", tool).Some?
    requires forall n | n in NamesOf(w, tool.provider) ::
               w.refuses(n, tool).Some? ==> Rank(RefusalOf(w, "", tool).value) <= Rank(w.refuses(n, tool).value)
    ensures forall r | IsGiven(w, tool, r) :: Rank(RefusalOf(w, "", tool).value) <= Rank(r)
  {
  }

  // ---------------------------------------------------------------- hits

  /** An entry of an answer: its own list of connections, separated by spaces and left out where it would be
      the shared list, and the reason why the request's connections do not offer the tool. */
  datatype Hit = Hit(id: string, connections: string, reason: Option<Refusal>)

  /** The connections that offer one of the tools. */
  function Offering(w: World, tools: seq<Tool>): set<string> {
    if tools == [] then {}
    else Offering(w, tools[..|tools| - 1]) + Elements(NamesFor(w, tools[|tools| - 1]))
  }

  lemma {:induction false} OfferingHasEach(w: World, tools: seq<Tool>, i: nat, c: string)
    requires i < |tools| && c in NamesFor(w, tools[i])
    ensures c in Offering(w, tools)
    decreases |tools|
  {
    if i < |tools| - 1 { OfferingHasEach(w, tools[..|tools| - 1], i, c); }
  }

  function HitOf(w: World, connection: string, shared: seq<string>, tool: Tool): Hit {
    var reason := RefusalOf(w, connection, tool);
    var names := NamesFor(w, tool);
    Hit(tool.id, if reason.None? && |names| == |shared| then "" else Join(names, " "), reason)
  }

  /** The first `i` tools are looked up: who offers them, and entries still without a list. */
  predicate Collected(w: World, connection: string, tools: seq<Tool>, i: nat, offered: seq<seq<string>>, bare: seq<Hit>)
    requires i <= |tools|
  {
    |offered| == |bare| == i &&
    forall j | 0 <= j < i ::
      offered[j] == NamesFor(w, tools[j]) && bare[j] == Hit(tools[j].id, "", RefusalOf(w, connection, tools[j]))
  }

  lemma CollectedStep(w: World, connection: string, tools: seq<Tool>, i: nat, offered: seq<seq<string>>, bare: seq<Hit>)
    requires i < |tools| && Collected(w, connection, tools, i, offered, bare)
    ensures Collected(w, connection, tools, i + 1, offered + [NamesFor(w, tools[i])],
                      bare + [Hit(tools[i].id, "", RefusalOf(w, connection, tools[i]))])
  {
  }

  /** `hits`: the shared list and the entries of an answer. */
  method Hits(w: World, connection: string, tools: seq<Tool>) returns (shared: seq<string>, hits: seq<Hit>)
    ensures shared == Sorted(Offering(w, tools)) && |hits| == |tools|
    ensures forall i | 0 <= i < |tools| :: hits[i] == HitOf(w, connection, shared, tools[i])
  {
    var seen: set<string> := {};
    var offered: seq<seq<string>> := [];
    var bare: seq<Hit> := [];
    for i := 0 to |tools|
      invariant Collected(w, connection, tools, i, offered, bare) && seen == Offering(w, tools[..i])
    {
      var names := NamesFor(w, tools[i]);
      var reason := FindRefusal(w, connection, tools[i]);
      CollectedStep(w, connection, tools, i, offered, bare);
      assert tools[..i + 1][..i] == tools[..i];
      seen := seen + Elements(names);
      offered := offered + [names];
      bare := bare + [Hit(tools[i].id, "", reason)];
    }
    assert tools[..|tools|] == tools;
    shared := Sorted(seen);
    hits := NameConnections(w, connection, tools, shared, offered, bare);
  }

  /** The loop of `hits` that gives an entry its own list where it differs from the shared one. */
  method NameConnections(w: World, connection: string, tools: seq<Tool>, shared: seq<string>,
                         offered: seq<seq<string>>, bare: seq<Hit>) returns (hits: seq<Hit>)
    requires Collected(w, connection, tools, |tools|, offered, bare)
    ensures |hits| == |tools| && forall i | 0 <= i < |tools| :: hits[i] == HitOf(w, connection, shared, tools[i])
  {
    hits := bare;
    for i := 0 to |hits|
      invariant |hits| == |tools| && forall j | i <= j < |hits| :: hits[j] == bare[j]
      invariant forall j | 0 <= j < i :: hits[j] == Completed(bare[j], offered[j], shared)
    {
      hits := hits[i := Completed(hits[i], offered[i], shared)];
    }
    forall i | 0 <= i < |tools| ensures hits[i] == HitOf(w, connection, shared, tools[i]) {
      CompletedIsHit(w, connection, shared, tools[i]);
    }
  }

  /** An entry with its own list, where it needs one. */
  function Completed(hit: Hit, names: seq<string>, shared: seq<string>): Hit {
    if hit.reason.None? && |names| == |shared| then hit else hit.(connections := Join(names, " "))
  }

  lemma CompletedIsHit(w: World, connection: string, shared: seq<string>, tool: Tool)
    ensures Completed(Hit(tool.id, "", RefusalOf(w, connection, tool)), NamesFor(w, tool), shared) ==
            HitOf(w, connection, shared, tool)
  {
  }

  // ---------------------------------------------------------------- reading an answer

  /** The names in a list separated by spaces. */
  function Words(s: string): seq<string>
    decreases |s|
  {
    var n := WordLength(s);
    if n == |s| then [s] else [s[..n]] + Words(s[n + 1..])
  }

  function WordLength(s: string): (n: nat)
    ensures n <= |s|
  {
    if s == "" || s[0] == ' ' then 0 else 1 + WordLength(s[1..])
  }

  lemma {:induction false} WordEnds(name: string, rest: string)
    requires ' ' !in name && (rest == "" || rest[0] == ' ')
    ensures WordLength(name + rest) == |name|
  {
    if name == "" {
      assert name + rest == rest;
    } else {
      assert (name + rest)[1..] == name[1..] + rest && name[0] in name;
      assert forall c | c in name[1..] :: c in name;
      WordEnds(name[1..], rest);
    }
  }

  lemma WordsStep(first: string, rest: string)
    requires ' ' !in first
    ensures Words(first + (" " + rest)) == [first] + Words(rest)
  {
    var s := first + (" " + rest);
    WordEnds(first, " " + rest);
    assert s[..|first|] == first && s[|first| + 1..] == rest;
  }

  lemma JoinStep(names: seq<string>)
    requires |names| > 1
    ensures Join(names, " ") == names[0] + (" " + Join(names[1..], " "))
  {
  }

  lemma WordsOfOne(first: string)
    requires ' ' !in first
    ensures Words(first) == [first]
  {
    WordEnds(first, "");
    assert first + "" == first;
  }

  lemma {:induction false} WordsOfJoin(names: seq<string>)
    requires names != [] && forall n | n in names :: Name(n)
    ensures Words(Join(names, " ")) == names && Join(names, " ") != ""
  {
    assert names[0] in names && names == [names[0]] + names[1..];
    if |names| == 1 {
      WordsOfOne(names[0]);
    } else {
      assert forall n | n in names[1..] :: n in names;
      WordsOfJoin(names[1..]);
      var rest := Join(names[1..], " ");
      JoinStep(names);
      WordsStep(names[0], rest);
    }
  }

  /** What a reader of an answer concludes about an entry. */
  function ReadHit(shared: seq<string>, hit: Hit): seq<string> {
    if hit.connections != "" then Words(hit.connections) else if hit.reason.None? then shared else []
  }

  lemma SameSizeSame(part: seq<string>, whole: seq<string>)
    requires Ascending(part) && Ascending(whole) && |part| == |whole| && forall c | c in part :: c in whole
    ensures part == whole
  {
    AscendingCount(part);
    AscendingCount(whole);
    SubsetSame(Elements(part), Elements(whole));
    assert forall c :: c in part <==> c in Elements(part);
    assert forall c :: c in whole <==> c in Elements(whole);
    AscendingIsUnique(part, whole);
  }

  lemma SubsetSame(p: set<string>, q: set<string>)
    requires p <= q && |p| == |q|
    ensures p == q
  {
    assert q == p + (q - p);
    assert |q| == |p| + |q - p|;
  }

  lemma ListedSome(w: World, names: seq<string>)
    requires WellFormed(w) && names != [] && forall n | n in names :: n in w.connections
    ensures Words(Join(names, " ")) == names && Join(names, " ") != ""
  {
    assert forall n | n in names :: Name(n);
    WordsOfJoin(names);
  }

  /** An entry without a reason has a connection that offers the tool, and without a filter one with a reason
      has none. */
  lemma ReasonTells(w: World, connection: string, tool: Tool)
    requires connection == "" || connection in w.connections
    ensures RefusalOf(w, connection, tool).None? ==> NamesFor(w, tool) != []
  {
    if connection == "" {
      RefusedExactlyWithoutOffer(w, tool);
    } else if RefusalOf(w, connection, tool).None? {
      assert connection in NamesFor(w, tool);
    }
  }

  /** Nothing about who offers a tool is lost: from the shared list, the entry's own list and its reason a reader
      recovers exactly the connections that offer it. */
  lemma AnswerIsLossless(w: World, connection: string, tools: seq<Tool>, i: nat)
    requires WellFormed(w) && i < |tools| && (connection == "" || connection in w.connections)
    ensures var shared := Sorted(Offering(w, tools));
            ReadHit(shared, HitOf(w, connection, shared, tools[i])) == NamesFor(w, tools[i])
  {
    var shared, names := Sorted(Offering(w, tools)), NamesFor(w, tools[i]);
    ReasonTells(w, connection, tools[i]);
    forall c | c in names ensures c in shared {
      OfferingHasEach(w, tools, i, c);
    }
    if RefusalOf(w, connection, tools[i]).None? && |names| == |shared| {
      SameSizeSame(names, shared);
    } else if names != [] {
      ListedSome(w, names);
    }
  }
}
