/** Which approvals belong to connections renamed by hand in the configuration, found by iterating over maps in any
    order, and what adopting one changes (internal/approval/approval.go, CarryApproval in
    internal/vault/approval.go). */
module Approvals {
  import opened Order

  datatype Connection = Connection(id: string, credential: string)

  /** What telling a hand rename needs of an approval: the id it records, if any, and its credential. */
  datatype Approval = Approval(id: string, credential: string)

  datatype Config = Config(connections: map<string, Connection>, vaultCredentials: set<string>)

  datatype HandRename = HandRename(approval: string, connection: string, ambiguous: bool)

  /** What validating a configuration guarantees: names are not empty, ids are unique. */
  ghost predicate WellFormed(cfg: Config) {
    && "" !in cfg.connections && "" !in cfg.vaultCredentials
    && forall c, d | c in cfg.connections && d in cfg.connections ::
         cfg.connections[c].id == cfg.connections[d].id && cfg.connections[c].id != "" ==> c == d
  }

  // ---------------------------------------------------------------- what a hand rename is

  /** The approval records the id of a connection that has no approval, and has itself no connection. */
  ghost predicate Claims(cfg: Config, held: map<string, Approval>, name: string, owner: string) {
    && name in held && name !in cfg.connections && held[name].id != ""
    && owner in cfg.connections && owner !in held && cfg.connections[owner].id == held[name].id
  }

  ghost predicate Claimed(held: map<string, Approval>, id: string) {
    id != "" && exists n :: n in held && held[n].id == id
  }

  /** The approval records no id and no connection, but its credential is that of a connection without approval
      that no recorded id claims. */
  ghost predicate Suits(cfg: Config, held: map<string, Approval>, name: string, connection: string) {
    && IsUnrecorded(cfg, held, name) && held[name].credential in cfg.vaultCredentials
    && connection in cfg.connections && connection !in held
    && cfg.connections[connection].credential == held[name].credential
    && !Claimed(held, cfg.connections[connection].id)
  }

  predicate IsUnrecorded(cfg: Config, held: map<string, Approval>, name: string) {
    name in held && name !in cfg.connections && held[name].id == ""
  }

  /** Exactly this connection for this approval, and this approval for this connection. */
  ghost predicate Paired(cfg: Config, held: map<string, Approval>, name: string, c: string) {
    || (Claims(cfg, held, name, c) && forall n | Claims(cfg, held, n, c) :: n == name)
    || (&& Suits(cfg, held, name, c) && (forall d | Suits(cfg, held, name, d) :: d == c)
        && forall n | Suits(cfg, held, n, c) :: n == name)
  }

  ghost predicate Belongs(cfg: Config, held: map<string, Approval>, name: string) {
    exists c :: Claims(cfg, held, name, c) || Suits(cfg, held, name, c)
  }

  ghost predicate IsFinding(cfg: Config, held: map<string, Approval>, h: HandRename) {
    Belongs(cfg, held, h.approval) &&
    if h.ambiguous then h.connection == "" && forall c :: !Paired(cfg, held, h.approval, c)
    else Paired(cfg, held, h.approval, h.connection)
  }

  predicate ByApproval(s: seq<HandRename>) {
    forall i, j | 0 <= i < j < |s| :: Less(s[i].approval, s[j].approval)
  }

  ghost predicate IsListing(cfg: Config, held: map<string, Approval>, found: seq<HandRename>) {
    ByApproval(found) && forall h :: h in found <==> IsFinding(cfg, held, h)
  }

  lemma FindingIsUnique(cfg: Config, held: map<string, Approval>, h: HandRename, g: HandRename)
    requires WellFormed(cfg) && IsFinding(cfg, held, h) && IsFinding(cfg, held, g) && h.approval == g.approval
    ensures h == g
  {
  }

  // ---------------------------------------------------------------- finding them

  predicate Distinct<T(==)>(s: seq<T>) { forall i, j | 0 <= i < j < |s| :: s[i] != s[j] }

  /** The listed connections and names are those that claim each other. */
  ghost predicate ClaimsListed(cfg: Config, held: map<string, Approval>, done: set<string>,
                               byOwner: map<string, seq<string>>) {
    && (forall o, n :: o in byOwner && n in byOwner[o] <==> n in done && Claims(cfg, held, n, o))
    && forall o | o in byOwner :: byOwner[o] != [] && Distinct(byOwner[o])
  }

  /** `connectionWithID`, for an id that is not empty. */
  method ConnectionWithId(cfg: Config, id: string) returns (owner: string)
    requires WellFormed(cfg) && id != ""
    ensures owner == "" ==> forall c | c in cfg.connections :: cfg.connections[c].id != id
    ensures owner != "" ==> owner in cfg.connections && cfg.connections[owner].id == id
  {
    var rest := cfg.connections.Keys;
    while rest != {}
      invariant rest <= cfg.connections.Keys
      invariant forall c | c in cfg.connections && c !in rest :: cfg.connections[c].id != id
    {
      var c :| c in rest;
      if cfg.connections[c].id == id {
        return c;
      }
      rest := rest - {c};
    }
    return "";
  }

  lemma OneMoreClaim(cfg: Config, held: map<string, Approval>, done: set<string>, byOwner: map<string, seq<string>>,
                     name: string, owner: string)
    requires WellFormed(cfg) && ClaimsListed(cfg, held, done, byOwner) && name !in done
    requires Claims(cfg, held, name, owner)
    ensures ClaimsListed(cfg, held, done + {name},
                         byOwner[owner := (if owner in byOwner then byOwner[owner] else []) + [name]])
  {
    if owner in byOwner { assert name !in byOwner[owner]; }
  }

  /** The first pass over the approvals. */
  method SortOut(cfg: Config, held: map<string, Approval>)
    returns (claimed: set<string>, byOwner: map<string, seq<string>>, unrecorded: seq<string>)
    requires WellFormed(cfg)
    ensures forall id :: id in claimed <==> Claimed(held, id)
    ensures ClaimsListed(cfg, held, held.Keys, byOwner)
    ensures Distinct(unrecorded) && forall n :: n in unrecorded <==> IsUnrecorded(cfg, held, n)
  {
    claimed, byOwner, unrecorded := {}, map[], [];
    var rest := held.Keys;
    while rest != {}
      invariant rest <= held.Keys
      invariant forall id :: id in claimed <==> id != "" && exists n :: n in held && n !in rest && held[n].id == id
      invariant ClaimsListed(cfg, held, held.Keys - rest, byOwner)
      invariant Distinct(unrecorded) && forall n :: n in unrecorded <==> n !in rest && IsUnrecorded(cfg, held, n)
    {
      var name :| name in rest;
      ghost var done := held.Keys - rest;
      rest := rest - {name};
      assert held.Keys - rest == done + {name};
      var ref := held[name];
      if ref.id != "" {
        claimed := claimed + {ref.id};
      }
      if name !in cfg.connections {
        if ref.id == "" {
          unrecorded := unrecorded + [name];
        } else {
          var owner := ConnectionWithId(cfg, ref.id);
          if owner != "" && owner !in held {
            OneMoreClaim(cfg, held, done, byOwner, name, owner);
            byOwner := byOwner[owner := (if owner in byOwner then byOwner[owner] else []) + [name]];
          }
        }
      }
    }
    assert held.Keys - rest == held.Keys;
  }

  /** What is found so far: exactly the findings of the approvals covered. */
  ghost predicate Lists(cfg: Config, held: map<string, Approval>, covered: set<string>, found: seq<HandRename>) {
    && (forall i, j | 0 <= i < j < |found| :: found[i].approval != found[j].approval)
    && forall h :: h in found <==> h.approval in covered && IsFinding(cfg, held, h)
  }

  lemma OneMoreFinding(cfg: Config, held: map<string, Approval>, covered: set<string>, found: seq<HandRename>,
                       h: HandRename)
    requires WellFormed(cfg) && Lists(cfg, held, covered, found)
    requires h.approval !in covered && IsFinding(cfg, held, h)
    ensures Lists(cfg, held, covered + {h.approval}, found + [h])
  {
    forall g: HandRename | g.approval == h.approval && IsFinding(cfg, held, g) ensures g == h {
      FindingIsUnique(cfg, held, g, h);
    }
    forall g | g in found ensures g.approval in covered { }
  }

  /** One owner with one claim is a pair, and with more of them each is ambiguous. */
  lemma OwnerDecides(cfg: Config, held: map<string, Approval>, byOwner: map<string, seq<string>>, owner: string,
                     name: string)
    requires WellFormed(cfg) && ClaimsListed(cfg, held, held.Keys, byOwner)
    requires owner in byOwner && name in byOwner[owner]
    ensures IsFinding(cfg, held, if |byOwner[owner]| == 1 then HandRename(name, owner, false)
                                 else HandRename(name, "", true))
  {
    var names := byOwner[owner];
    assert Claims(cfg, held, name, owner);
    if |names| == 1 {
      forall n | Claims(cfg, held, n, owner) ensures n == name { assert n in names; }
    } else {
      assert Claims(cfg, held, names[0], owner) && Claims(cfg, held, names[1], owner);
      assert names[0] != names[1];
    }
  }

  method FindByOwner(cfg: Config, held: map<string, Approval>, byOwner: map<string, seq<string>>)
    returns (found: seq<HandRename>, ghost covered: set<string>)
    requires WellFormed(cfg) && ClaimsListed(cfg, held, held.Keys, byOwner)
    ensures Lists(cfg, held, covered, found)
    ensures forall n :: n in covered <==> exists o :: Claims(cfg, held, n, o)
  {
    found, covered := [], {};
    var rest := byOwner.Keys;
    while rest != {}
      invariant rest <= byOwner.Keys && Lists(cfg, held, covered, found)
      invariant forall n :: n in covered <==> exists o :: o !in rest && Claims(cfg, held, n, o)
    {
      var owner :| owner in rest;
      rest := rest - {owner};
      var names := byOwner[owner];
      ghost var before := covered;
      for i := 0 to |names|
        invariant Lists(cfg, held, covered, found)
        invariant covered == before + set n | n in names[..i]
      {
        assert names[i] in names && Claims(cfg, held, names[i], owner);
        assert names[..i + 1] == names[..i] + [names[i]];
        var h := if |names| == 1 then HandRename(names[i], owner, false) else HandRename(names[i], "", true);
        OwnerDecides(cfg, held, byOwner, owner, names[i]);
        OneMoreFinding(cfg, held, covered, found, h);
        found := found + [h];
        covered := covered + {names[i]};
      }
      assert names[..|names|] == names;
    }
  }

  /** How many of the names suit a connection. */
  ghost function Suitors(cfg: Config, held: map<string, Approval>, names: seq<string>, c: string): nat {
    if names == [] then 0
    else Suitors(cfg, held, names[..|names| - 1], c) + if Suits(cfg, held, names[|names| - 1], c) then 1 else 0
  }

  lemma {:induction false} NoSuitor(cfg: Config, held: map<string, Approval>, names: seq<string>, c: string)
    ensures Suitors(cfg, held, names, c) == 0 <==> forall n | n in names :: !Suits(cfg, held, n, c)
  {
    if names != [] {
      var front, last := names[..|names| - 1], names[|names| - 1];
      NoSuitor(cfg, held, front, c);
      assert names == front + [last];
    }
  }

  lemma {:induction false} OneSuitor(cfg: Config, held: map<string, Approval>, names: seq<string>, c: string,
                                     name: string)
    requires Distinct(names) && name in names && Suits(cfg, held, name, c)
    ensures Suitors(cfg, held, names, c) == 1 <==> forall n | n in names && Suits(cfg, held, n, c) :: n == name
  {
    var front, last := names[..|names| - 1], names[|names| - 1];
    assert names == front + [last] && Distinct(front) && last !in front;
    NoSuitor(cfg, held, front, c);
    if name != last { OneSuitor(cfg, held, front, c, name); }
  }

  function Count(matches: map<string, nat>, c: string): nat { if c in matches then matches[c] else 0 }

  /** The connections that suit one approval without id, each counted as matched. */
  method FindCandidates(cfg: Config, held: map<string, Approval>, claimed: set<string>, name: string,
                        before: map<string, nat>) returns (found: seq<string>, matches: map<string, nat>)
    requires forall id :: id in claimed <==> Claimed(held, id)
    requires IsUnrecorded(cfg, held, name) && held[name].credential in cfg.vaultCredentials
    ensures Distinct(found) && forall c :: c in found <==> Suits(cfg, held, name, c)
    ensures forall c :: Count(matches, c) == Count(before, c) + if Suits(cfg, held, name, c) then 1 else 0
  {
    found, matches := [], before;
    var rest := cfg.connections.Keys;
    while rest != {}
      invariant rest <= cfg.connections.Keys && Distinct(found)
      invariant forall c :: c in found <==> c !in rest && Suits(cfg, held, name, c)
      invariant forall c :: Count(matches, c) == Count(before, c) + if c in found then 1 else 0
    {
      var c :| c in rest;
      rest := rest - {c};
      var entry := cfg.connections[c];
      if c !in held && entry.credential == held[name].credential && entry.id !in claimed {
        found := found + [c];
        matches := matches[c := Count(matches, c) + 1];
      }
    }
  }

  /** The candidates of the approvals without id, and how often each connection is one. */
  ghost predicate CandidatesListed(cfg: Config, held: map<string, Approval>, names: seq<string>,
                                   candidates: map<string, seq<string>>, matches: map<string, nat>) {
    && (forall n, c :: n in candidates && c in candidates[n] <==> n in names && Suits(cfg, held, n, c))
    && (forall n | n in candidates :: candidates[n] != [] && Distinct(candidates[n]))
    && forall c :: Count(matches, c) == Suitors(cfg, held, names, c)
  }

  method MatchCredentials(cfg: Config, held: map<string, Approval>, claimed: set<string>, unrecorded: seq<string>)
    returns (candidates: map<string, seq<string>>, matches: map<string, nat>)
    requires WellFormed(cfg) && forall id :: id in claimed <==> Claimed(held, id)
    requires Distinct(unrecorded) && forall n :: n in unrecorded <==> IsUnrecorded(cfg, held, n)
    ensures CandidatesListed(cfg, held, unrecorded, candidates, matches)
  {
    candidates, matches := map[], map[];
    for i := 0 to |unrecorded|
      invariant CandidatesListed(cfg, held, unrecorded[..i], candidates, matches)
    {
      var name := unrecorded[i];
      assert name in unrecorded;
      var found, counted := [], matches;
      if held[name].credential != "" && held[name].credential in cfg.vaultCredentials {
        found, counted := FindCandidates(cfg, held, claimed, name, matches);
      }
      assert unrecorded[..i + 1] == unrecorded[..i] + [name];
      if found != [] {
        candidates := candidates[name := found];
      }
      matches := counted;
    }
    assert unrecorded[..|unrecorded|] == unrecorded;
  }

  /** One candidate that nothing else matches is a pair; anything else is ambiguous. */
  lemma CandidatesDecide(cfg: Config, held: map<string, Approval>, unrecorded: seq<string>,
                         candidates: map<string, seq<string>>, matches: map<string, nat>, name: string)
    requires CandidatesListed(cfg, held, unrecorded, candidates, matches) && name in candidates
    requires Distinct(unrecorded) && forall n :: n in unrecorded <==> IsUnrecorded(cfg, held, n)
    ensures var found := candidates[name];
            IsFinding(cfg, held, if |found| == 1 && Count(matches, found[0]) == 1 then HandRename(name, found[0], false)
                                 else HandRename(name, "", true))
  {
    var found := candidates[name];
    assert found[0] in found && Suits(cfg, held, name, found[0]);
    if |found| == 1 {
      forall d | Suits(cfg, held, name, d) ensures d == found[0] { assert d in found; }
      OneSuitor(cfg, held, unrecorded, found[0], name);
    } else {
      assert found[1] in found && Suits(cfg, held, name, found[1]) && found[0] != found[1];
    }
  }

  method FindByCredential(cfg: Config, held: map<string, Approval>, unrecorded: seq<string>,
                          candidates: map<string, seq<string>>, matches: map<string, nat>,
                          before: seq<HandRename>, ghost claiming: set<string>)
    returns (found: seq<HandRename>)
    requires WellFormed(cfg) && CandidatesListed(cfg, held, unrecorded, candidates, matches)
    requires Distinct(unrecorded) && forall n :: n in unrecorded <==> IsUnrecorded(cfg, held, n)
    requires Lists(cfg, held, claiming, before)
    requires forall n :: n in claiming <==> exists o :: Claims(cfg, held, n, o)
    ensures Lists(cfg, held, claiming + candidates.Keys, found)
  {
    found := before;
    var rest := candidates.Keys;
    ghost var covered := claiming;
    while rest != {}
      invariant rest <= candidates.Keys && Lists(cfg, held, covered, found)
      invariant covered == claiming + (candidates.Keys - rest)
    {
      var name :| name in rest;
      var cs := candidates[name];
      assert cs[0] in cs && Suits(cfg, held, name, cs[0]);
      CandidatesDecide(cfg, held, unrecorded, candidates, matches, name);
      var h := if |cs| == 1 && Count(matches, cs[0]) == 1 then HandRename(name, cs[0], false)
               else HandRename(name, "", true);
      OneMoreFinding(cfg, held, covered, found, h);
      found := found + [h];
      rest := rest - {name};
      covered := covered + {name};
    }
  }

  // ---------------------------------------------------------------- sorting them

  function InsertFinding(h: HandRename, s: seq<HandRename>): seq<HandRename> {
    if s == [] || Less(h.approval, s[0].approval) then [h] + s else [s[0]] + InsertFinding(h, s[1..])
  }

  function SortFindings(s: seq<HandRename>): seq<HandRename> {
    if s == [] then [] else InsertFinding(s[0], SortFindings(s[1..]))
  }

  lemma {:induction false} InsertSorts(h: HandRename, s: seq<HandRename>)
    requires ByApproval(s) && forall g | g in s :: g.approval != h.approval
    ensures ByApproval(InsertFinding(h, s)) && forall g :: g in InsertFinding(h, s) <==> g == h || g in s
  {
    if s != [] {
      assert s == [s[0]] + s[1..];
      if Less(h.approval, s[0].approval) {
        forall i | 0 < i < |s| ensures Less(h.approval, s[i].approval) {
          LessIsTransitive(h.approval, s[0].approval, s[i].approval);
        }
      } else {
        LessIsTotal(h.approval, s[0].approval);
        InsertSorts(h, s[1..]);
        var rest := InsertFinding(h, s[1..]);
        forall i | 0 <= i < |rest| ensures Less(s[0].approval, rest[i].approval) {
          assert rest[i] in rest;
          if rest[i] != h {
            var k :| 0 <= k < |s| - 1 && s[1..][k] == rest[i];
            assert rest[i] == s[k + 1];
          }
        }
      }
    }
  }

  lemma {:induction false} SortSorts(s: seq<HandRename>)
    requires forall i, j | 0 <= i < j < |s| :: s[i].approval != s[j].approval
    ensures ByApproval(SortFindings(s)) && forall h :: h in SortFindings(s) <==> h in s
  {
    if s != [] {
      assert s == [s[0]] + s[1..];
      SortSorts(s[1..]);
      forall g | g in SortFindings(s[1..]) ensures g.approval != s[0].approval {
        var k :| 0 <= k < |s| - 1 && s[1..][k] == g;
        assert g == s[k + 1];
      }
      InsertSorts(s[0], SortFindings(s[1..]));
    }
  }

  /** `handRenames`, with every map iterated in any order. */
  method FindHandRenames(cfg: Config, held: map<string, Approval>) returns (found: seq<HandRename>)
    requires WellFormed(cfg)
    ensures IsListing(cfg, held, found)
  {
    var claimed, byOwner, unrecorded := SortOut(cfg, held);
    var owned, covered := FindByOwner(cfg, held, byOwner);
    var candidates, matches := MatchCredentials(cfg, held, claimed, unrecorded);
    var all := FindByCredential(cfg, held, unrecorded, candidates, matches, owned, covered);
    SortSorts(all);
    found := SortFindings(all);
  }

  lemma ListingsAgree(a: seq<HandRename>, b: seq<HandRename>)
    requires ByApproval(a) && ByApproval(b) && forall h :: h in a <==> h in b
    ensures a == b
    decreases |a|
  {
    BothOrNeither(a, b);
    if a != [] {
      assert a[0] in b && b[0] in a;
      SameHead(a, b);
      SameRest(a, b);
      SameRest(b, a);
      ListingsAgree(a[1..], b[1..]);
      assert a == [a[0]] + a[1..] && b == [b[0]] + b[1..];
    }
  }

  lemma BothOrNeither(a: seq<HandRename>, b: seq<HandRename>)
    requires forall h :: h in a <==> h in b
    ensures a == [] <==> b == []
  {
    if a != [] { assert a[0] in b; }
    if b != [] { assert b[0] in a; }
  }

  lemma SameHead(a: seq<HandRename>, b: seq<HandRename>)
    requires ByApproval(a) && ByApproval(b) && a != [] && b != [] && a[0] in b && b[0] in a
    ensures a[0] == b[0]
  {
    var i :| 0 <= i < |b| && b[i] == a[0];
    var j :| 0 <= j < |a| && a[j] == b[0];
    if i > 0 && j > 0 { LessIsAsymmetric(b[0].approval, b[i].approval); }
  }

  lemma SameRest(a: seq<HandRename>, b: seq<HandRename>)
    requires ByApproval(a) && a != [] && b != [] && a[0] == b[0] && forall h | h in a :: h in b
    ensures forall h | h in a[1..] :: h in b[1..]
  {
    forall h | h in a[1..] ensures h in b[1..] {
      var i :| 0 <= i < |a| - 1 && a[1..][i] == h;
      assert a[i + 1] == h && h in a;
      LessIsIrreflexive(h.approval);
      assert b == [b[0]] + b[1..];
    }
  }

  /** The order in which the maps are iterated is never seen. */
  lemma OrderIsNotSeen(cfg: Config, held: map<string, Approval>, a: seq<HandRename>, b: seq<HandRename>)
    requires IsListing(cfg, held, a) && IsListing(cfg, held, b)
    ensures a == b
  {
    ListingsAgree(a, b);
  }

  /** What is suggested pairs unconfigured approvals with connections without approval, one to one. */
  lemma PairsAreOneToOne(cfg: Config, held: map<string, Approval>, a: HandRename, b: HandRename)
    requires WellFormed(cfg) && IsFinding(cfg, held, a) && IsFinding(cfg, held, b) && !a.ambiguous && !b.ambiguous
    ensures a.approval in held && a.approval !in cfg.connections
    ensures a.connection in cfg.connections && a.connection !in held
    ensures a.approval == b.approval <==> a.connection == b.connection
  {
  }

  /** The configuration after connection `was` was given another name in the file. */
  function RenamedByHand(cfg: Config, was: string, name: string): Config
    requires was in cfg.connections
  {
    cfg.(connections := (cfg.connections - {was})[name := cfg.connections[was]])
  }

  /** A connection renamed by hand, whose approval records its id as no other does, is paired with its new name. */
  lemma RenameIsFoundById(cfg: Config, held: map<string, Approval>, was: string, name: string, found: seq<HandRename>)
    requires was in cfg.connections && name !in cfg.connections && was in held && name !in held
    requires held[was].id == cfg.connections[was].id != ""
    requires forall n | n in held && n != was :: held[n].id != held[was].id
    requires forall c | c in cfg.connections && c != was :: cfg.connections[c].id != held[was].id
    requires IsListing(RenamedByHand(cfg, was, name), held, found)
    ensures HandRename(was, name, false) in found
  {
    var after := RenamedByHand(cfg, was, name);
    assert Claims(after, held, was, name);
    assert IsFinding(after, held, HandRename(was, name, false));
  }

  /** So is one whose approval records no id, if it reads a vault credential that no other connection without approval
      reads, no other such approval without connection is for, and no approval records its id. */
  lemma RenameIsFoundByCredential(cfg: Config, held: map<string, Approval>, was: string, name: string,
                                  found: seq<HandRename>)
    requires was in cfg.connections && name !in cfg.connections && was in held && name !in held && held[was].id == ""
    requires held[was].credential in cfg.vaultCredentials && held[was].credential == cfg.connections[was].credential
    requires forall n | n in held :: held[n].id == "" || held[n].id != cfg.connections[was].id
    requires forall c | c in cfg.connections && c != was && c !in held :: cfg.connections[c].credential != held[was].credential
    requires forall n | n in held && n != was && n !in cfg.connections && held[n].id == "" ::
               held[n].credential != held[was].credential
    requires IsListing(RenamedByHand(cfg, was, name), held, found)
    ensures HandRename(was, name, false) in found
  {
    var after := RenamedByHand(cfg, was, name);
    assert Suits(after, held, was, name);
    assert IsFinding(after, held, HandRename(was, name, false));
  }

  // ---------------------------------------------------------------- stale approvals and leftovers

  /** No connection of that name reads a vault credential. */
  predicate IsStale(cfg: Config, held: map<string, Approval>, name: string) {
    name in held &&
    (name in cfg.connections ==> cfg.connections[name].credential !in cfg.vaultCredentials)
  }

  datatype Leftover = Leftover(approval: string, connection: string)

  /** A stale approval that is no hand rename, but records the id of another connection. */
  ghost predicate IsLeftover(cfg: Config, held: map<string, Approval>, l: Leftover) {
    && IsStale(cfg, held, l.approval) && held[l.approval].id != "" && l.connection != l.approval
    && l.connection in cfg.connections && cfg.connections[l.connection].id == held[l.approval].id
    && !Belongs(cfg, held, l.approval)
  }

  datatype Report = Report(stale: seq<string>, leftovers: seq<Leftover>, handRenames: seq<HandRename>)

  /** What `Pending` finds beside the open connections. */
  ghost predicate IsReport(cfg: Config, held: map<string, Approval>, r: Report) {
    && IsListing(cfg, held, r.handRenames)
    && Ascending(r.stale) && (forall n :: n in r.stale <==> IsStale(cfg, held, n))
    && (forall i, j | 0 <= i < j < |r.leftovers| :: Less(r.leftovers[i].approval, r.leftovers[j].approval))
    && forall l :: l in r.leftovers <==> IsLeftover(cfg, held, l)
  }

  /** Whatever belongs to a connection is found, suggested or ambiguous. */
  lemma WhatBelongsIsFound(cfg: Config, held: map<string, Approval>, name: string)
    ensures Belongs(cfg, held, name) <==> exists h :: IsFinding(cfg, held, h) && h.approval == name
  {
    if Belongs(cfg, held, name) {
      if c :| Paired(cfg, held, name, c) {
        assert IsFinding(cfg, held, HandRename(name, c, false));
      } else {
        assert IsFinding(cfg, held, HandRename(name, "", true));
      }
    }
  }

  method Pending(cfg: Config, held: map<string, Approval>) returns (r: Report)
    requires WellFormed(cfg)
    ensures IsReport(cfg, held, r)
  {
    var handRenames := FindHandRenames(cfg, held);
    var byHand := set h | h in handRenames :: h.approval;
    forall n ensures n in byHand <==> Belongs(cfg, held, n) {
      WhatBelongsIsFound(cfg, held, n);
      assert n in byHand <==> exists h :: h in handRenames && h.approval == n;
    }
    var stale, leftovers := ListStale(cfg, held, byHand);
    r := Report(stale, leftovers, handRenames);
  }

  method ListStale(cfg: Config, held: map<string, Approval>, byHand: set<string>)
    returns (stale: seq<string>, leftovers: seq<Leftover>)
    requires WellFormed(cfg) && forall n :: n in byHand <==> Belongs(cfg, held, n)
    ensures Ascending(stale) && forall n :: n in stale <==> IsStale(cfg, held, n)
    ensures forall i, j | 0 <= i < j < |leftovers| :: Less(leftovers[i].approval, leftovers[j].approval)
    ensures forall l :: l in leftovers <==> IsLeftover(cfg, held, l)
  {
    var names := Sorted(held.Keys);
    stale, leftovers := [], [];
    for i := 0 to |names|
      invariant StaleOf(cfg, held, names[..i], stale) && LeftoversOf(cfg, held, names[..i], leftovers)
    {
      var name := names[i];
      assert name in names;
      var owner := "";
      if IsStale(cfg, held, name) && held[name].id != "" {
        owner := ConnectionWithId(cfg, held[name].id);
      }
      OneMoreStale(cfg, held, names, i, stale);
      if IsStale(cfg, held, name) {
        stale := stale + [name];
      }
      if owner != "" && owner != name && name !in byHand {
        OneMoreLeftover(cfg, held, names, i, leftovers, owner);
        leftovers := leftovers + [Leftover(name, owner)];
      }
    }
    assert names[..|names|] == names;
  }

  ghost predicate StaleOf(cfg: Config, held: map<string, Approval>, names: seq<string>, stale: seq<string>) {
    Ascending(stale) && forall n :: n in stale <==> n in names && IsStale(cfg, held, n)
  }

  ghost predicate LeftoversOf(cfg: Config, held: map<string, Approval>, names: seq<string>, found: seq<Leftover>) {
    && (forall i, j | 0 <= i < j < |found| :: Less(found[i].approval, found[j].approval))
    && forall l :: l in found <==> l.approval in names && IsLeftover(cfg, held, l)
  }

  lemma OneMoreStale(cfg: Config, held: map<string, Approval>, names: seq<string>, i: nat, stale: seq<string>)
    requires Ascending(names) && i < |names| && StaleOf(cfg, held, names[..i], stale)
    ensures StaleOf(cfg, held, names[..i + 1], if IsStale(cfg, held, names[i]) then stale + [names[i]] else stale)
  {
    assert names[..i + 1] == names[..i] + [names[i]];
    AboveAll(names, i, stale);
  }

  lemma OneMoreLeftover(cfg: Config, held: map<string, Approval>, names: seq<string>, i: nat, found: seq<Leftover>,
                        c: string)
    requires WellFormed(cfg) && Ascending(names) && i < |names| && LeftoversOf(cfg, held, names[..i], found)
    requires IsLeftover(cfg, held, Leftover(names[i], c))
    ensures LeftoversOf(cfg, held, names[..i + 1], found + [Leftover(names[i], c)])
  {
    assert names[..i + 1] == names[..i] + [names[i]];
    forall k | 0 <= k < |found| ensures Less(found[k].approval, names[i]) {
      assert found[k] in found;
      AboveAll(names, i, [found[k].approval]);
    }
    forall l: Leftover | l.approval == names[i] && IsLeftover(cfg, held, l) ensures l == Leftover(names[i], c) { }
  }

  lemma AboveAll(names: seq<string>, i: nat, listed: seq<string>)
    requires Ascending(names) && i < |names| && forall n | n in listed :: n in names[..i]
    ensures forall k | 0 <= k < |listed| :: Less(listed[k], names[i])
  {
    forall k | 0 <= k < |listed| ensures Less(listed[k], names[i]) {
      assert listed[k] in listed;
      var j :| 0 <= j < i && names[..i][j] == listed[k];
    }
  }

  /** `RevocableStale`. */
  method RevocableStale(r: Report) returns (out: seq<string>)
    requires Ascending(r.stale)
    ensures Ascending(out)
    ensures forall n :: n in out <==> n in r.stale && forall h | h in r.handRenames :: h.approval != n
  {
    var byHand := set h | h in r.handRenames :: h.approval;
    out := [];
    for i := 0 to |r.stale|
      invariant Ascending(out)
      invariant forall n :: n in out <==> n in r.stale[..i] && n !in byHand
    {
      assert r.stale[..i + 1] == r.stale[..i] + [r.stale[i]];
      AboveAll(r.stale, i, out);
      if r.stale[i] !in byHand {
        out := out + [r.stale[i]];
      }
    }
    assert r.stale[..|r.stale|] == r.stale;
  }

  /** Revoking what may be revoked removes the leftovers and never a hand rename. */
  lemma RevokingSparesHandRenames(cfg: Config, held: map<string, Approval>, r: Report, revocable: seq<string>)
    requires IsReport(cfg, held, r)
    requires forall n :: n in revocable <==> n in r.stale && forall h | h in r.handRenames :: h.approval != n
    ensures forall h | h in r.handRenames :: h.approval in r.stale && h.approval !in revocable
    ensures forall l | l in r.leftovers :: l.approval in revocable
    ensures forall n | n in r.stale && n !in revocable :: exists h :: h in r.handRenames && h.approval == n
  {
    forall l | l in r.leftovers ensures l.approval in revocable { WhatBelongsIsFound(cfg, held, l.approval); }
  }

  /** An unconfigured approval that records another connection's id is a leftover exactly when that connection
      holds an approval of its own; otherwise it was renamed by hand. */
  lemma LeftoverIsHeld(cfg: Config, held: map<string, Approval>, name: string, c: string)
    requires WellFormed(cfg) && name in held && name !in cfg.connections && held[name].id != ""
    requires c in cfg.connections && cfg.connections[c].id == held[name].id
    ensures IsLeftover(cfg, held, Leftover(name, c)) <==> c in held
    ensures Belongs(cfg, held, name) <==> c !in held
  {
    if c !in held { assert Claims(cfg, held, name, c); }
  }

  /** The connection of a leftover holds no approval exactly when the approval's own name is that of another
      connection, one without a vault credential. */
  lemma UnheldExactly(cfg: Config, held: map<string, Approval>, l: Leftover)
    ensures IsLeftover(cfg, held, l) && l.connection !in held <==>
            && l.approval in held && held[l.approval].id != ""
            && l.approval in cfg.connections && cfg.connections[l.approval].credential !in cfg.vaultCredentials
            && l.connection != l.approval && l.connection in cfg.connections && l.connection !in held
            && cfg.connections[l.connection].id == held[l.approval].id
  {
    if Claims(cfg, held, l.approval, l.connection) { assert Belongs(cfg, held, l.approval); }
  }

  /** With the name configured again, without a vault credential, the leftover's connection may hold none. */
  lemma UnheldLeftover()
    ensures exists cfg, held, l :: WellFormed(cfg) && IsLeftover(cfg, held, l) && l.connection !in held
  {
    var cfg := Config(map["a" := Connection("2", "plain"), "b" := Connection("1", "c")], {"c"});
    var held := map["a" := Approval("1", "c")];
    assert cfg.connections["a"].id[0] == '2' && cfg.connections["b"].id[0] == '1';
    assert "c"[0] != "plain"[0];
    assert IsLeftover(cfg, held, Leftover("a", "b"));
  }

  // ---------------------------------------------------------------- adopting a hand rename

  /** The approvals once that of a renamed connection is carried to its new name: under both names until the
      old one is revoked. */
  function Carry(held: map<string, Approval>, from: string, to: string, id: string): map<string, Approval>
    requires from in held
  {
    held[from := held[from].(id := id)][to := held[from].(id := id)]
  }

  /** Carried, and revoked or not. */
  predicate IsCarried(held: map<string, Approval>, after: map<string, Approval>, from: string, to: string, id: string)
    requires from in held
  {
    after == Carry(held, from, to, id) || after == Carry(held, from, to, id) - {from}
  }

  ghost predicate Relates(cfg: Config, held: map<string, Approval>, name: string, c: string) {
    Claims(cfg, held, name, c) || Suits(cfg, held, name, c)
  }

  /** A pair stands alone: neither side relates to anything else. */
  lemma PairStandsAlone(cfg: Config, held: map<string, Approval>, name: string, c: string)
    requires WellFormed(cfg) && Paired(cfg, held, name, c)
    ensures forall n, d | Relates(cfg, held, n, d) :: n == name <==> d == c
  {
  }

  lemma CarriedClaims(cfg: Config, held: map<string, Approval>, after: map<string, Approval>, from: string, to: string)
    requires WellFormed(cfg) && Paired(cfg, held, from, to) && cfg.connections[to].id != ""
    requires IsCarried(held, after, from, to, cfg.connections[to].id)
    ensures forall id :: Claimed(after, id) <==> Claimed(held, id) || id == cfg.connections[to].id
    ensures forall n, d :: Claims(cfg, after, n, d) <==> Claims(cfg, held, n, d) && n != from
  {
    PairStandsAlone(cfg, held, from, to);
    forall id ensures Claimed(after, id) <==> Claimed(held, id) || id == cfg.connections[to].id {
      assert after[to].id == cfg.connections[to].id;
      if Claimed(held, id) {
        var n :| n in held && held[n].id == id;
        assert n == from || (n in after && after[n].id == id);
      }
      if Claimed(after, id) {
        var n :| n in after && after[n].id == id;
        assert n == to || n == from || (n in held && held[n].id == id);
      }
    }
    forall n, d ensures Claims(cfg, after, n, d) <==> Claims(cfg, held, n, d) && n != from {
      if Claims(cfg, held, n, d) { assert Relates(cfg, held, n, d); }
    }
  }

  /** Adopting a hand rename settles it and changes nothing about any other, also when it stops before the old
      approval is revoked; so hand renames may be adopted in any order. */
  lemma AdoptionKeepsTheRest(cfg: Config, held: map<string, Approval>, after: map<string, Approval>, h: HandRename)
    requires WellFormed(cfg) && IsFinding(cfg, held, h) && !h.ambiguous && cfg.connections[h.connection].id != ""
    requires IsCarried(held, after, h.approval, h.connection, cfg.connections[h.connection].id)
    ensures forall g :: IsFinding(cfg, after, g) <==> IsFinding(cfg, held, g) && g.approval != h.approval
  {
    CarriedClaims(cfg, held, after, h.approval, h.connection);
    PairStandsAlone(cfg, held, h.approval, h.connection);
    forall n | n != h.approval
      ensures Belongs(cfg, after, n) <==> Belongs(cfg, held, n)
      ensures forall c :: Paired(cfg, after, n, c) <==> Paired(cfg, held, n, c)
    {
      OthersStayPaired(cfg, held, after, h.approval, h.connection, n);
    }
  }

  lemma OthersStayPaired(cfg: Config, held: map<string, Approval>, after: map<string, Approval>, from: string,
                         to: string, n: string)
    requires n != from && forall m, d | Relates(cfg, held, m, d) :: m == from <==> d == to
    requires forall m, d :: Claims(cfg, after, m, d) <==> Claims(cfg, held, m, d) && m != from
    requires forall m, d :: Suits(cfg, after, m, d) <==> Suits(cfg, held, m, d) && m != from
    ensures Belongs(cfg, after, n) <==> Belongs(cfg, held, n)
    ensures forall c :: Paired(cfg, after, n, c) <==> Paired(cfg, held, n, c)
  {
    forall c ensures Paired(cfg, after, n, c) <==> Paired(cfg, held, n, c) {
      if Relates(cfg, held, n, c) {
        forall m | Claims(cfg, held, m, c) ensures m != from { assert Relates(cfg, held, m, c); }
        forall m | Suits(cfg, held, m, c) ensures m != from { assert Relates(cfg, held, m, c); }
      }
    }
  }

  /** A carry that stops before the revocation leaves what the report calls a leftover. */
  lemma CutShortIsALeftover(cfg: Config, held: map<string, Approval>, h: HandRename)
    requires WellFormed(cfg) && IsFinding(cfg, held, h) && !h.ambiguous && cfg.connections[h.connection].id != ""
    ensures var after := Carry(held, h.approval, h.connection, cfg.connections[h.connection].id);
            IsLeftover(cfg, after, Leftover(h.approval, h.connection))
  {
    var after := Carry(held, h.approval, h.connection, cfg.connections[h.connection].id);
    AdoptionKeepsTheRest(cfg, held, after, h);
    WhatBelongsIsFound(cfg, after, h.approval);
  }
}
