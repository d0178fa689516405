/** Renaming a service, connection or credential of the configuration together with every reference to it
    (internal/config/renameentry.go), and what it leaves of the rule that decides which connection offers which tool
    (ConnectionRefusal in internal/config/config.go). */
module RenameConfig {
  import opened Order
  import opened Wrappers
  import Registry

  datatype Service = Service(id: string, provider: string, endpoint: string)

  datatype Credential = Credential(id: string, provider: string, kind: string, forward: bool)

  /** What a connection offers: by selected tools, or by effects, or by its provider's default effects. */
  datatype Selection = Selection(tools: Option<seq<string>>, effects: Option<seq<string>>, targets: seq<string>,
                                 targetsOutdated: bool, readsFiles: bool, writesFiles: bool, disabled: bool,
                                 activeUntil: Expiry)

  datatype Expiry = Never | At(time: int) | Unreadable

  datatype Connection = Connection(id: string, service: string, credential: string, forward: seq<string>,
                                   selection: Selection)

  datatype Config = Config(services: map<string, Service>, credentials: map<string, Credential>,
                           connections: map<string, Connection>, defaults: map<string, string>)

  datatype Problem = NotThere | InvalidName | SameName | Taken

  predicate IsAlphanumeric(c: char) { '0' <= c <= '9' || 'A' <= c <= 'Z' || 'a' <= c <= 'z' }

  /** `validateName`. */
  predicate ValidName(s: string) {
    && s != "" && (forall i | 0 <= i < |s| :: IsAlphanumeric(s[i]) || s[i] == '-' || s[i] == '_' || s[i] == '.')
    && IsAlphanumeric(s[0]) && IsAlphanumeric(s[|s| - 1])
  }

  /** `checkRename`. */
  function CheckRename<V>(entries: map<string, V>, was: string, name: string): Option<Problem> {
    if was !in entries then Some(NotThere)
    else if !ValidName(name) then Some(InvalidName)
    else if name == was then Some(SameName)
    else if name in entries then Some(Taken)
    else None
  }

  // ---------------------------------------------------------------- renaming

  function Renamed(ref: string, was: string, name: string): string { if ref == was then name else ref }

  function Moved<V>(entries: map<string, V>, was: string, name: string): map<string, V>
    requires was in entries
  {
    (entries - {was})[name := entries[was]]
  }

  function RenamedAll(refs: seq<string>, was: string, name: string): seq<string> {
    seq(|refs|, i requires 0 <= i < |refs| => Renamed(refs[i], was, name))
  }

  function WithService(c: Connection, was: string, name: string): Connection {
    c.(service := Renamed(c.service, was, name))
  }

  function WithCredential(c: Connection, was: string, name: string): Connection {
    c.(credential := Renamed(c.credential, was, name), forward := RenamedAll(c.forward, was, name))
  }

  function ServiceRenamed(cfg: Config, was: string, name: string): Config
    requires was in cfg.services
  {
    cfg.(services := Moved(cfg.services, was, name),
         connections := map c | c in cfg.connections :: WithService(cfg.connections[c], was, name))
  }

  function CredentialRenamed(cfg: Config, was: string, name: string): Config
    requires was in cfg.credentials
  {
    cfg.(credentials := Moved(cfg.credentials, was, name),
         connections := map c | c in cfg.connections :: WithCredential(cfg.connections[c], was, name))
  }

  function ConnectionRenamed(cfg: Config, was: string, name: string): Config
    requires was in cfg.connections
  {
    cfg.(connections := Moved(cfg.connections, was, name),
         defaults := map d | d in cfg.defaults :: Renamed(cfg.defaults[d], was, name))
  }

  // ---------------------------------------------------------------- what a connection offers

  datatype LocalFiles = NoFiles | Reads | Writes

  datatype Tool = Tool(id: string, effect: string, needsAllowList: bool, files: LocalFiles)

  datatype Refusal =
    | EffectNotPermitted | NeedsAllowList | NotInToolsList | NoLocalFiles | NoConnection | OutsideTargets
    | TargetsOutdated | Disabled

  /** What the providers of a build say: the default effects, and which tools targets reach. */
  datatype Catalog = Catalog(effects: string -> seq<string>, reaches: (string, string, seq<string>) -> bool)

  /** No provider is named "": what is asked of it is answered as of one that declares nothing. */
  ghost predicate Lawful(catalog: Catalog) {
    catalog.effects("") == [] && forall tool, targets :: catalog.reaches("", tool, targets)
  }

  const EFFECTS: set<string> := {"read", "create", "update", "delete", "execute"}

  /** What registration asks of a tool's id and effect. */
  predicate IsRegistrable(tool: Tool) { IsToolId(tool.id) && tool.effect in EFFECTS }

  predicate IsToolId(id: string) { 3 <= |Segments(id)| <= 4 && forall word | word in Segments(id) :: Registry.ValidSegment(word) }

  /** White space as `unicode.IsSpace` has it. */
  predicate IsSpace(c: char) {
    var n := c as int;
    9 <= n <= 13 || n == 0x20 || n == 0x85 || n == 0xA0 || n == 0x1680 || 0x2000 <= n <= 0x200A || n == 0x2028 ||
    n == 0x2029 || n == 0x202F || n == 0x205F || n == 0x3000
  }

  function Grown(c: char, words: seq<string>): seq<string>
    requires words != []
  {
    [[c] + words[0]] + words[1..]
  }

  /** `strings.Split` at dots. */
  function Segments(s: string): (r: seq<string>)
    ensures r != []
  {
    if s == "" then [""]
    else if s[0] == '.' then [""] + Segments(s[1..])
    else Grown(s[0], Segments(s[1..]))
  }

  /** `toolPrefixShape`: words joined by dots, then ".*". */
  predicate IsPrefix(entry: string) {
    && |entry| >= 2 && entry[|entry| - 2..] == ".*" && (forall i | 0 <= i < |entry| - 1 :: entry[i] != '*')
    && forall word | word in Segments(entry[..|entry| - 2]) ::
         word != "" && !IsSpace(word[0]) && !IsSpace(word[|word| - 1])
  }

  predicate StartsWith(s: string, start: string) { |start| <= |s| && s[..|start|] == start }

  /** `ToolPrefixStem`: the entry names the provider and at least one word more. */
  predicate IsPrefixOf(provider: string, entry: string) {
    IsPrefix(entry) && provider != "" && StartsWith(entry[..|entry| - 1], provider + ".") && |entry| != |provider| + 2
  }

  /** `ToolPrefixCovers`. */
  predicate PrefixCovers(provider: string, entry: string, tool: Tool) {
    IsPrefixOf(provider, entry) && !tool.needsAllowList && StartsWith(tool.id, entry[..|entry| - 1])
  }

  /** `ToolListCovers`. */
  predicate Covers(provider: string, entries: seq<string>, tool: Tool) {
    exists entry | entry in entries :: entry == tool.id || PrefixCovers(provider, entry, tool)
  }

  /** The provider of a connection, "" for a service that does not exist. */
  function ProviderOf(cfg: Config, c: Connection): string {
    if c.service in cfg.services then cfg.services[c.service].provider else ""
  }

  /** `ConnectionEffects`, for a connection that does not select tools. */
  function EffectsOf(cfg: Config, catalog: Catalog, c: Connection): seq<string> {
    if c.selection.effects.Some? then c.selection.effects.value
    else if catalog.effects(ProviderOf(cfg, c)) != [] then catalog.effects(ProviderOf(cfg, c))
    else ["read"]
  }

  function ListRefusal(cfg: Config, catalog: Catalog, c: Connection, tool: Tool): Option<Refusal> {
    var s := c.selection;
    if s.tools.Some? && !Covers(ProviderOf(cfg, c), s.tools.value, tool) then Some(NotInToolsList)
    else if s.tools.None? && tool.effect !in EffectsOf(cfg, catalog, c) then Some(EffectNotPermitted)
    else if s.tools.None? && tool.needsAllowList then Some(NeedsAllowList)
    else if (tool.files == Reads && !s.readsFiles) || (tool.files == Writes && !s.writesFiles) then Some(NoLocalFiles)
    else None
  }

  function SelectionRefusal(cfg: Config, catalog: Catalog, c: Connection, tool: Tool): Option<Refusal> {
    if c.selection.targetsOutdated then Some(TargetsOutdated)
    else if ListRefusal(cfg, catalog, c, tool).Some? then ListRefusal(cfg, catalog, c, tool)
    else if !catalog.reaches(ProviderOf(cfg, c), tool.id, c.selection.targets) then Some(OutsideTargets)
    else None
  }

  predicate IsOff(c: Connection, now: int) {
    c.selection.disabled || c.selection.activeUntil.Unreadable? ||
    (c.selection.activeUntil.At? && now >= c.selection.activeUntil.time)
  }

  /** `ConnectionRefusal`; None where the connection offers the tool. */
  function ConnectionRefusal(cfg: Config, catalog: Catalog, name: string, tool: Tool, now: int): Option<Refusal> {
    if name !in cfg.connections then Some(NoConnection)
    else
      var c := cfg.connections[name];
      var refusal := SelectionRefusal(cfg, catalog, c, tool);
      if refusal.Some? || !IsOff(c, now) then refusal else Some(Disabled)
  }

  /** A connection offers a tool its selection offers exactly while it is not switched off and the time is before its
      limit, if it has one; a limit that does not read is past. */
  lemma OffersBeforeItsLimit(cfg: Config, catalog: Catalog, name: string, tool: Tool, now: int)
    requires name in cfg.connections && SelectionRefusal(cfg, catalog, cfg.connections[name], tool).None?
    ensures var s := cfg.connections[name].selection;
            ConnectionRefusal(cfg, catalog, name, tool, now) ==
            if s.disabled then Some(Disabled)
            else match s.activeUntil
              case Never => None
              case Unreadable => Some(Disabled)
              case At(time) => if now < time then None else Some(Disabled)
  {
  }

  /** No connection refers to the new name before an entry bears it. */
  predicate NoServiceRef(cfg: Config, name: string) { forall c | c in cfg.connections :: cfg.connections[c].service != name }

  predicate NoCredentialRef(cfg: Config, name: string) {
    forall c | c in cfg.connections :: cfg.connections[c].credential != name && name !in cfg.connections[c].forward
  }

  predicate NoDefaultRef(cfg: Config, name: string) { forall d | d in cfg.defaults :: cfg.defaults[d] != name }

  /** Renaming a service leaves the refusal of a tool as it was. */
  predicate SameRefusal(cfg: Config, was: string, name: string, c: string, catalog: Catalog, tool: Tool, now: int)
    requires was in cfg.services
  {
    ConnectionRefusal(ServiceRenamed(cfg, was, name), catalog, c, tool, now) ==
    ConnectionRefusal(cfg, catalog, c, tool, now)
  }

  /** So it does for every tool a build can register, with whatever providers it has, at every time. */
  ghost predicate SameRefusals(cfg: Config, was: string, name: string, c: string)
    requires was in cfg.services
  {
    forall catalog, tool, now | Lawful(catalog) && IsRegistrable(tool) :: SameRefusal(cfg, was, name, c, catalog, tool, now)
  }

  /** A prefix of the provider under which there can be a tool. */
  predicate CoversSome(provider: string, entry: string) {
    IsPrefixOf(provider, entry) &&
    var words := Segments(entry[..|entry| - 2]);
    2 <= |words| <= 3 && forall word | word in words :: Registry.ValidSegment(word)
  }

  predicate NamesATool(entries: seq<string>) { exists entry | entry in entries :: IsToolId(entry) }

  predicate CoversATool(provider: string, entries: seq<string>) {
    exists entry | entry in entries :: CoversSome(provider, entry)
  }

  predicate NamesAnEffect(effects: seq<string>) { exists effect | effect in effects :: effect in EFFECTS }

  /** The connection offers no tool, with the provider and without: its targets are outdated, or its list of tools or
      of effects, as an empty one, selects none there can be. */
  predicate OffersNothing(s: Selection, provider: string) {
    || s.targetsOutdated
    || (s.tools.Some? && !NamesATool(s.tools.value) && !CoversATool(provider, s.tools.value))
    || (s.tools.None? && s.effects.Some? && !NamesAnEffect(s.effects.value))
  }

  /** Renaming a service leaves every connection offering exactly what it offered, unless a connection referred to
      the new name while no service had it. */
  lemma ServiceRenameKeepsRefusals(cfg: Config, was: string, name: string, c: string)
    requires CheckRename(cfg.services, was, name).None?
    requires c in cfg.connections ==> cfg.connections[c].service != name
    ensures forall catalog, tool, now :: SameRefusal(cfg, was, name, c, catalog, tool, now)
  {
    if c in cfg.connections { SameProviderKeeps(cfg, was, name, c); }
  }

  lemma SameProviderKeeps(cfg: Config, was: string, name: string, c: string)
    requires CheckRename(cfg.services, was, name).None? && c in cfg.connections
    requires var after := ServiceRenamed(cfg, was, name);
             ProviderOf(after, after.connections[c]) == ProviderOf(cfg, cfg.connections[c])
    ensures forall catalog, tool, now :: SameRefusal(cfg, was, name, c, catalog, tool, now)
  {
    forall catalog, tool, now ensures SameRefusal(cfg, was, name, c, catalog, tool, now) { }
  }

  lemma GrownConcat(c: char, words: seq<string>, more: seq<string>)
    requires words != []
    ensures Grown(c, words + more) == Grown(c, words) + more
  {
  }

  lemma SegmentsOfDot(rest: string)
    ensures Segments("." + rest) == [""] + Segments(rest)
  {
    assert ("." + rest)[1..] == rest;
  }

  lemma {:induction false} SegmentsConcat(a: string, b: string)
    ensures Segments(a + ("." + b)) == Segments(a) + Segments(b)
  {
    if a == "" {
      SegmentsOfDot(b);
      assert a + ("." + b) == "." + b;
    } else {
      var all := a + ("." + b);
      assert all[1..] == a[1..] + ("." + b) && all[0] == a[0];
      SegmentsConcat(a[1..], b);
      GrownConcat(a[0], Segments(a[1..]), Segments(b));
    }
  }

  /** The words of a prefix entry, and what every tool it covers starts with. */
  lemma EntryParts(entry: string)
    requires IsPrefix(entry)
    ensures entry[..|entry| - 1] == entry[..|entry| - 2] + "."
  {
    assert entry[|entry| - 2..][0] == '.';
  }

  lemma WordsOfTool(words: string, id: string)
    requires StartsWith(id, words + ".") && IsToolId(id) && |Segments(words)| >= 2
    ensures |Segments(words)| <= 3 && forall word | word in Segments(words) :: Registry.ValidSegment(word)
  {
    var rest := id[|words| + 1..];
    assert id == words + ("." + rest);
    SegmentsConcat(words, rest);
    assert forall word | word in Segments(words) :: word in Segments(id);
  }

  /** A prefix that covers a tool there can be is one under which there can be a tool. */
  lemma CoveringCoversSome(provider: string, entry: string, tool: Tool)
    requires IsRegistrable(tool) && PrefixCovers(provider, entry, tool)
    ensures CoversSome(provider, entry)
  {
    PrefixHasTwoWords(provider, entry);
    EntryParts(entry);
    WordsOfTool(entry[..|entry| - 2], tool.id);
  }

  /** A prefix of a provider has two words at least. */
  lemma PrefixHasTwoWords(provider: string, entry: string)
    requires IsPrefixOf(provider, entry)
    ensures |Segments(entry[..|entry| - 2])| >= 2
  {
    var words, n := entry[..|entry| - 2], |provider| + 1;
    EntryParts(entry);
    assert words[..n] == entry[..|entry| - 1][..n] == provider + ".";
    var rest := words[n..];
    assert words == provider + ("." + rest);
    SegmentsConcat(provider, rest);
  }

  lemma NothingListed(s: Selection, provider: string, tool: Tool)
    requires s.tools.Some? && !NamesATool(s.tools.value) && !CoversATool(provider, s.tools.value) && IsRegistrable(tool)
    ensures !Covers(provider, s.tools.value, tool) && !Covers("", s.tools.value, tool)
  {
    forall entry | entry in s.tools.value ensures entry != tool.id && !PrefixCovers(provider, entry, tool) {
      if PrefixCovers(provider, entry, tool) {
        CoveringCoversSome(provider, entry, tool);
      }
    }
  }

  lemma NothingToRefuse(cfg: Config, catalog: Catalog, c: Connection, provider: string, tool: Tool)
    requires OffersNothing(c.selection, provider) && IsRegistrable(tool)
    requires ProviderOf(cfg, c) == provider || ProviderOf(cfg, c) == ""
    ensures SelectionRefusal(cfg, catalog, c, tool) ==
            Some(if c.selection.targetsOutdated then TargetsOutdated
                 else if c.selection.tools.Some? then NotInToolsList else EffectNotPermitted)
  {
    if !c.selection.targetsOutdated && c.selection.tools.Some? { NothingListed(c.selection, provider, tool); }
  }

  lemma OfferingNothingKeeps(cfg: Config, was: string, name: string, c: string)
    requires CheckRename(cfg.services, was, name).None? && c in cfg.connections && cfg.connections[c].service == name
    requires OffersNothing(cfg.connections[c].selection, cfg.services[was].provider)
    ensures SameRefusals(cfg, was, name, c)
  {
    var after, provider := ServiceRenamed(cfg, was, name), cfg.services[was].provider;
    forall catalog, tool, now | Lawful(catalog) && IsRegistrable(tool)
      ensures SameRefusal(cfg, was, name, c, catalog, tool, now)
    {
      NothingToRefuse(cfg, catalog, cfg.connections[c], provider, tool);
      NothingToRefuse(after, catalog, after.connections[c], provider, tool);
    }
  }

  /** Providers whose targets reach no tool, and providers whose targets reach every tool. */
  function Reaching(some: bool): (catalog: Catalog)
    ensures Lawful(catalog) && catalog.effects == (p => []) && catalog.reaches == ((p, tool, targets) => some || p == "")
  {
    Catalog(p => [], (p, tool, targets) => some || p == "")
  }

  /** The refusal of a tool without local files by a connection that selects tools. */
  lemma RefusalByList(cfg: Config, catalog: Catalog, c: Connection, tool: Tool)
    requires !c.selection.targetsOutdated && c.selection.tools.Some? && tool.files == NoFiles
    ensures SelectionRefusal(cfg, catalog, c, tool) ==
            if !Covers(ProviderOf(cfg, c), c.selection.tools.value, tool) then Some(NotInToolsList)
            else if !catalog.reaches(ProviderOf(cfg, c), tool.id, c.selection.targets) then Some(OutsideTargets)
            else None
  {
  }

  /** With a provider a connection can lose a tool it names by id or effect: its targets may not reach it. */
  lemma ProviderCanLoseATool(cfg: Config, was: string, name: string, c: string, tool: Tool)
    requires CheckRename(cfg.services, was, name).None? && c in cfg.connections && cfg.connections[c].service == name
    requires cfg.services[was].provider != "" && !cfg.connections[c].selection.targetsOutdated
    requires IsRegistrable(tool) && tool.files == NoFiles && !tool.needsAllowList
    requires var s := cfg.connections[c].selection;
             if s.tools.Some? then tool.id in s.tools.value
             else if s.effects.Some? then tool.effect in s.effects.value else tool.effect == "read"
    ensures !SameRefusals(cfg, was, name, c)
  {
    var after, conn, catalog := ServiceRenamed(cfg, was, name), cfg.connections[c], Reaching(false);
    if conn.selection.tools.Some? {
      RefusalByList(cfg, catalog, conn, tool);
      RefusalByList(after, catalog, after.connections[c], tool);
    }
    assert SelectionRefusal(cfg, catalog, conn, tool) == None;
    assert SelectionRefusal(after, catalog, after.connections[c], tool) == Some(OutsideTargets);
    assert !SameRefusal(cfg, was, name, c, catalog, tool, 0);
  }

  lemma NoneNamed(entries: seq<string>, tool: Tool)
    requires IsToolId(tool.id) && !NamesATool(entries)
    ensures !Covers("", entries, tool)
  {
  }

  /** With a provider a connection can gain a tool: a prefix covers nothing without one. */
  lemma ProviderCanGainATool(cfg: Config, was: string, name: string, c: string, tool: Tool)
    requires CheckRename(cfg.services, was, name).None? && c in cfg.connections && cfg.connections[c].service == name
    requires cfg.services[was].provider != "" && !cfg.connections[c].selection.targetsOutdated
    requires IsRegistrable(tool) && tool.files == NoFiles
    requires var s := cfg.connections[c].selection;
             s.tools.Some? && !NamesATool(s.tools.value) && Covers(cfg.services[was].provider, s.tools.value, tool)
    ensures !SameRefusals(cfg, was, name, c)
  {
    var after, conn, catalog := ServiceRenamed(cfg, was, name), cfg.connections[c], Reaching(true);
    NoneNamed(conn.selection.tools.value, tool);
    RefusalByList(cfg, catalog, conn, tool);
    RefusalByList(after, catalog, after.connections[c], tool);
    assert !SameRefusal(cfg, was, name, c, catalog, tool, 0);
  }

  lemma OneWord()
    ensures Segments("x") == ["x"] && Registry.ValidSegment("x")
  {
    assert "x"[1..] == "" && ['x'] + "" == "x";
    assert Segments("x") == Grown('x', Segments(""));
    assert Grown('x', [""]) == ["x"];
  }

  lemma SomeToolId() returns (id: string)
    ensures IsToolId(id)
  {
    var two := "x" + ("." + "x");
    id := "x" + ("." + two);
    OneWord();
    SegmentsConcat("x", "x");
    SegmentsConcat("x", two);
  }

  lemma IdUnder(words: string)
    requires 2 <= |Segments(words)| <= 3 && forall word | word in Segments(words) :: Registry.ValidSegment(word)
    ensures IsToolId(words + ("." + "x"))
  {
    OneWord();
    SegmentsConcat(words, "x");
  }

  /** A tool under a prefix. */
  lemma ToolUnder(provider: string, entry: string) returns (tool: Tool)
    requires CoversSome(provider, entry)
    ensures IsRegistrable(tool) && tool.files == NoFiles && PrefixCovers(provider, entry, tool)
  {
    var words := entry[..|entry| - 2];
    tool := Tool(words + ("." + "x"), "read", false, NoFiles);
    EntryParts(entry);
    IdUnder(words);
    assert tool.id[..|words| + 1] == words + ".";
  }

  lemma SelectingChanges(cfg: Config, was: string, name: string, c: string)
    requires CheckRename(cfg.services, was, name).None? && c in cfg.connections && cfg.connections[c].service == name
    requires !OffersNothing(cfg.connections[c].selection, cfg.services[was].provider) && cfg.services[was].provider != ""
    ensures !SameRefusals(cfg, was, name, c)
  {
    var s, provider := cfg.connections[c].selection, cfg.services[was].provider;
    if s.tools.None? {
      var id := SomeToolId();
      var effect := "read";
      if s.effects.Some? { effect :| effect in s.effects.value && effect in EFFECTS; }
      ProviderCanLoseATool(cfg, was, name, c, Tool(id, effect, false, NoFiles));
    } else if NamesATool(s.tools.value) {
      var id :| id in s.tools.value && IsToolId(id);
      ProviderCanLoseATool(cfg, was, name, c, Tool(id, "read", false, NoFiles));
    } else {
      var entry :| entry in s.tools.value && CoversSome(provider, entry);
      var tool := ToolUnder(provider, entry);
      ProviderCanGainATool(cfg, was, name, c, tool);
    }
  }

  /** A connection that referred to the new name before keeps all its refusals exactly when it offers nothing anyway,
      or the service has no provider. */
  lemma DanglingServiceChangesOffer(cfg: Config, was: string, name: string, c: string)
    requires CheckRename(cfg.services, was, name).None? && c in cfg.connections && cfg.connections[c].service == name
    ensures SameRefusals(cfg, was, name, c) <==>
            OffersNothing(cfg.connections[c].selection, cfg.services[was].provider) || cfg.services[was].provider == ""
  {
    if OffersNothing(cfg.connections[c].selection, cfg.services[was].provider) {
      OfferingNothingKeeps(cfg, was, name, c);
    } else if cfg.services[was].provider == "" {
      SameProviderKeeps(cfg, was, name, c);
    } else {
      SelectingChanges(cfg, was, name, c);
    }
  }

  /** So exactly these connections keep all their refusals. */
  lemma RefusalsAreKeptExactly(cfg: Config, was: string, name: string, c: string)
    requires CheckRename(cfg.services, was, name).None? && c in cfg.connections
    ensures SameRefusals(cfg, was, name, c) <==>
            cfg.connections[c].service != name || cfg.services[was].provider == "" ||
            OffersNothing(cfg.connections[c].selection, cfg.services[was].provider)
  {
    if cfg.connections[c].service == name {
      DanglingServiceChangesOffer(cfg, was, name, c);
    } else {
      ServiceRenameKeepsRefusals(cfg, was, name, c);
    }
  }

  lemma CredentialRenameKeepsRefusals(cfg: Config, catalog: Catalog, was: string, name: string, c: string, tool: Tool, now: int)
    requires CheckRename(cfg.credentials, was, name).None?
    ensures ConnectionRefusal(CredentialRenamed(cfg, was, name), catalog, c, tool, now) ==
            ConnectionRefusal(cfg, catalog, c, tool, now)
  {
  }

  /** A renamed connection offers under its new name what it offered under the old one, and is gone under that. */
  lemma ConnectionRenameKeepsRefusals(cfg: Config, catalog: Catalog, was: string, name: string, c: string, tool: Tool, now: int)
    requires CheckRename(cfg.connections, was, name).None? && c in cfg.connections
    ensures ConnectionRefusal(ConnectionRenamed(cfg, was, name), catalog, Renamed(c, was, name), tool, now) ==
            ConnectionRefusal(cfg, catalog, c, tool, now)
    ensures ConnectionRefusal(ConnectionRenamed(cfg, was, name), catalog, was, tool, now) == Some(NoConnection)
  {
  }

  // ---------------------------------------------------------------- references

  predicate Resolved(cfg: Config) {
    && (forall c | c in cfg.connections ::
          var e := cfg.connections[c];
          e.service in cfg.services && e.credential in cfg.credentials && forall f | f in e.forward :: f in cfg.credentials)
    && forall d | d in cfg.defaults :: cfg.defaults[d] in cfg.connections
  }

  lemma RenamedAllHas(refs: seq<string>, was: string, name: string)
    ensures forall r | r in RenamedAll(refs, was, name) :: exists f :: f in refs && r == Renamed(f, was, name)
  {
    forall r | r in RenamedAll(refs, was, name) ensures exists f :: f in refs && r == Renamed(f, was, name) {
      var i :| 0 <= i < |refs| && r == RenamedAll(refs, was, name)[i];
      assert refs[i] in refs;
    }
  }

  /** No rename leaves a reference behind. */
  lemma RenamesKeepReferences(cfg: Config, was: string, name: string)
    requires Resolved(cfg)
    ensures CheckRename(cfg.services, was, name).None? ==> Resolved(ServiceRenamed(cfg, was, name))
    ensures CheckRename(cfg.credentials, was, name).None? ==> Resolved(CredentialRenamed(cfg, was, name))
    ensures CheckRename(cfg.connections, was, name).None? ==> Resolved(ConnectionRenamed(cfg, was, name))
  {
    if CheckRename(cfg.credentials, was, name).None? {
      forall c | c in cfg.connections
        ensures forall f | f in RenamedAll(cfg.connections[c].forward, was, name) :: f in Moved(cfg.credentials, was, name)
      {
        RenamedAllHas(cfg.connections[c].forward, was, name);
      }
    }
  }

  /** Every reference still leads to the very entry it led to: same id, same contents. */
  lemma ReferencesLeadToTheSame<V>(entries: map<string, V>, was: string, name: string, ref: string)
    requires CheckRename(entries, was, name).None? && ref in entries
    ensures Renamed(ref, was, name) in Moved(entries, was, name)
    ensures Moved(entries, was, name)[Renamed(ref, was, name)] == entries[ref]
    ensures |Moved(entries, was, name)| == |entries|
  {
    assert Moved(entries, was, name).Keys == entries.Keys - {was} + {name};
    assert |Moved(entries, was, name).Keys| == |entries.Keys|;
  }

  // ---------------------------------------------------------------- undoing

  lemma RenamedBack(ref: string, was: string, name: string)
    requires was != name
    ensures Renamed(Renamed(ref, was, name), name, was) == ref <==> ref != name
  {
  }

  /** The reverse rename is accepted, and restores the configuration exactly when nothing referred to the new name
      before. */
  lemma ServiceRenameIsUndone(cfg: Config, was: string, name: string)
    requires CheckRename(cfg.services, was, name).None? && ValidName(was)
    ensures var there := ServiceRenamed(cfg, was, name);
            && CheckRename(there.services, name, was).None?
            && (ServiceRenamed(there, name, was) == cfg <==> NoServiceRef(cfg, name))
  {
    var back := ServiceRenamed(ServiceRenamed(cfg, was, name), name, was);
    forall c | c in cfg.connections
      ensures back.connections[c] == cfg.connections[c] <==> cfg.connections[c].service != name
    {
      RenamedBack(cfg.connections[c].service, was, name);
    }
    if NoServiceRef(cfg, name) { assert back.connections == cfg.connections; }
  }

  lemma CredentialRenameIsUndone(cfg: Config, was: string, name: string)
    requires CheckRename(cfg.credentials, was, name).None? && ValidName(was)
    ensures var there := CredentialRenamed(cfg, was, name);
            && CheckRename(there.credentials, name, was).None?
            && (CredentialRenamed(there, name, was) == cfg <==> NoCredentialRef(cfg, name))
  {
    var back := CredentialRenamed(CredentialRenamed(cfg, was, name), name, was);
    forall c | c in cfg.connections
      ensures back.connections[c] == cfg.connections[c] <==>
              cfg.connections[c].credential != name && name !in cfg.connections[c].forward
    {
      RenamedBack(cfg.connections[c].credential, was, name);
    }
    if NoCredentialRef(cfg, name) { assert back.connections == cfg.connections; }
  }

  lemma ConnectionRenameIsUndone(cfg: Config, was: string, name: string)
    requires CheckRename(cfg.connections, was, name).None? && ValidName(was)
    ensures var there := ConnectionRenamed(cfg, was, name);
            && CheckRename(there.connections, name, was).None?
            && (ConnectionRenamed(there, name, was) == cfg <==> NoDefaultRef(cfg, name))
  {
    var back := ConnectionRenamed(ConnectionRenamed(cfg, was, name), name, was);
    forall d | d in cfg.defaults ensures back.defaults[d] == cfg.defaults[d] <==> cfg.defaults[d] != name {
      RenamedBack(cfg.defaults[d], was, name);
    }
    if NoDefaultRef(cfg, name) { assert back.defaults == cfg.defaults; }
  }

  // ---------------------------------------------------------------- in place

  function ServicePath(c: string): string { "connections." + c + ".service" }

  function CredentialPath(c: string): string { "connections." + c + ".credential" }

  function ForwardPath(c: string): string { "connections." + c + ".forward_secrets" }

  function DefaultPath(d: string): string { "defaults.connections." + d }

  /** The references a rename rewrites. */
  function ServiceRefs(cfg: Config, was: string): set<string> {
    set c | c in cfg.connections && cfg.connections[c].service == was :: ServicePath(c)
  }

  function CredentialRefs(cfg: Config, was: string): set<string> {
    (set c | c in cfg.connections && cfg.connections[c].credential == was :: CredentialPath(c)) +
    (set c | c in cfg.connections && was in cfg.connections[c].forward :: ForwardPath(c))
  }

  function DefaultRefs(cfg: Config, was: string): set<string> {
    set d | d in cfg.defaults && cfg.defaults[d] == was :: DefaultPath(d)
  }

  /** The connections, those not in `rest` rewritten. */
  ghost predicate Rewritten(before: map<string, Connection>, now: map<string, Connection>, rest: set<string>,
                            rewrite: Connection -> Connection) {
    && now.Keys == before.Keys
    && forall c | c in before :: now[c] == if c in rest then before[c] else rewrite(before[c])
  }

  class Store {
    var config: Config

    constructor (config: Config)
      ensures this.config == config
    {
      this.config := config;
    }

    method RenameService(was: string, name: string) returns (problem: Option<Problem>, refs: seq<string>)
      modifies this
      ensures problem == CheckRename(old(config).services, was, name)
      ensures problem.Some? ==> config == old(config)
      ensures problem.None? ==>
        config == ServiceRenamed(old(config), was, name) && refs == Sorted(ServiceRefs(old(config), was))
    {
      problem := CheckRename(config.services, was, name);
      if problem.Some? {
        return problem, [];
      }
      ghost var before := config;
      var connections, found := config.connections, {};
      var rest := connections.Keys;
      while rest != {}
        invariant rest <= before.connections.Keys
        invariant Rewritten(before.connections, connections, rest, c => WithService(c, was, name))
        invariant forall r :: r in found <==>
          exists c :: c in before.connections && c !in rest && before.connections[c].service == was && r == ServicePath(c)
      {
        var c :| c in rest;
        rest := rest - {c};
        if connections[c].service == was {
          connections := connections[c := connections[c].(service := name)];
          found := found + {ServicePath(c)};
        }
      }
      assert found == ServiceRefs(before, was);
      config := config.(services := (config.services - {was})[name := config.services[was]], connections := connections);
      assert config.connections == ServiceRenamed(before, was, name).connections;
      refs := Sorted(found);
    }

    method RenameConnection(was: string, name: string) returns (problem: Option<Problem>, refs: seq<string>)
      modifies this
      ensures problem == CheckRename(old(config).connections, was, name)
      ensures problem.Some? ==> config == old(config)
      ensures problem.None? ==>
        config == ConnectionRenamed(old(config), was, name) && refs == Sorted(DefaultRefs(old(config), was))
    {
      problem := CheckRename(config.connections, was, name);
      if problem.Some? {
        return problem, [];
      }
      ghost var before := config;
      var defaults, found := config.defaults, {};
      var rest := defaults.Keys;
      while rest != {}
        invariant rest <= before.defaults.Keys && defaults.Keys == before.defaults.Keys
        invariant forall d | d in before.defaults ::
                    defaults[d] == if d in rest then before.defaults[d] else Renamed(before.defaults[d], was, name)
        invariant forall r :: r in found <==>
          exists d :: d in before.defaults && d !in rest && before.defaults[d] == was && r == DefaultPath(d)
      {
        var d :| d in rest;
        rest := rest - {d};
        if defaults[d] == was {
          defaults := defaults[d := name];
          found := found + {DefaultPath(d)};
        }
      }
      assert found == DefaultRefs(before, was);
      config := config.(connections := (config.connections - {was})[name := config.connections[was]], defaults := defaults);
      assert config.defaults == ConnectionRenamed(before, was, name).defaults;
      refs := Sorted(found);
    }

    /** The forward credentials with every mention of one renamed, a new list. */
    method RenameForward(forward: seq<string>, was: string, name: string) returns (renamed: seq<string>)
      ensures renamed == RenamedAll(forward, was, name)
    {
      renamed := [];
      for i := 0 to |forward|
        invariant renamed == RenamedAll(forward[..i], was, name)
      {
        assert forward[..i + 1] == forward[..i] + [forward[i]];
        renamed := renamed + [if forward[i] == was then name else forward[i]];
      }
      assert forward[..|forward|] == forward;
    }

    method RewriteCredential(c: Connection, was: string, name: string) returns (entry: Connection)
      ensures entry == WithCredential(c, was, name)
    {
      entry := c;
      if entry.credential == was {
        entry := entry.(credential := name);
      }
      if was in entry.forward {
        var forward := RenameForward(entry.forward, was, name);
        entry := entry.(forward := forward);
      }
    }

    method RenameCredential(was: string, name: string) returns (problem: Option<Problem>, refs: seq<string>)
      modifies this
      ensures problem == CheckRename(old(config).credentials, was, name)
      ensures problem.Some? ==> config == old(config)
      ensures problem.None? ==>
        config == CredentialRenamed(old(config), was, name) && refs == Sorted(CredentialRefs(old(config), was))
    {
      problem := CheckRename(config.credentials, was, name);
      if problem.Some? {
        return problem, [];
      }
      ghost var before := config;
      var connections, found := RewriteReaders(was, name);
      config := config.(credentials := (config.credentials - {was})[name := config.credentials[was]],
                        connections := connections);
      assert config.connections == CredentialRenamed(before, was, name).connections;
      refs := Sorted(found);
    }

    /** Every connection that reads or releases the credential. */
    method RewriteReaders(was: string, name: string) returns (connections: map<string, Connection>, found: set<string>)
      ensures Rewritten(config.connections, connections, {}, c => WithCredential(c, was, name))
      ensures found == CredentialRefs(config, was)
    {
      connections := config.connections;
      var readers, forwarders := {}, {};
      var rest := connections.Keys;
      while rest != {}
        invariant rest <= config.connections.Keys
        invariant Rewritten(config.connections, connections, rest, c => WithCredential(c, was, name))
        invariant forall c :: c in readers <==> c in config.connections && c !in rest && config.connections[c].credential == was
        invariant forall c :: c in forwarders <==> c in config.connections && c !in rest && was in config.connections[c].forward
      {
        var c :| c in rest;
        rest := rest - {c};
        if connections[c].credential == was {
          readers := readers + {c};
        }
        if was in connections[c].forward {
          forwarders := forwarders + {c};
        }
        var entry := RewriteCredential(connections[c], was, name);
        connections := connections[c := entry];
      }
      found := (set c | c in readers :: CredentialPath(c)) + (set c | c in forwarders :: ForwardPath(c));
      assert rest == {};
    }
  }

}
