/** The registry of providers and their operations: registration that is recorded whole or not at all, and rename
    tables that resolve in one step (internal/capability/capability.go). */
module Registry {
  import opened Order
  import opened Wrappers

  /** What a provider declares about itself and its history; `sound` stands for the checks that concern no
      other provider. */
  datatype Provider = Provider(id: string, serviceLevel: bool, groups: seq<string>, former: seq<string>,
                               renamed: map<string, string>, removed: set<string>, sound: bool)

  /** An operation; whether its descriptor is valid depends on the service level its provider declares. */
  datatype Operation = Operation(id: string, provider: string, version: nat, group: string, effect: string,
                                 validPlain: bool, validInService: bool)

  datatype State = State(providers: map<string, Provider>, operations: map<string, Operation>)

  datatype Outcome =
    | Registered
    | Refused
    | Duplicate(id: string, version: nat)
    | VersionConflict(id: string, existing: nat, incoming: nat)

  const NO_PROVIDER := Provider("", false, [], [], map[], {}, true)

  predicate ValidSegment(s: string) {
    && s != "" && 'a' <= s[0] <= 'z'
    && forall i | 0 <= i < |s| :: 'a' <= s[i] <= 'z' || '0' <= s[i] <= '9' ||
                                  (s[i] == '-' && i + 1 < |s| && s[i + 1] != '-')
  }

  predicate ValidProviderId(id: string) {
    ValidSegment(id) ||
    exists i | 0 <= i < |id| :: id[i] == '.' && ValidSegment(id[..i]) && ValidSegment(id[i + 1..])
  }

  function VendorOf(id: string): string { if id == "" || id[0] == '.' then "" else [id[0]] + VendorOf(id[1..]) }

  function Dots(id: string): nat { if id == "" then 0 else Dots(id[1..]) + if id[0] == '.' then 1 else 0 }

  // ---------------------------------------------------------------- providers

  /** What a provider may say about its former ids by itself. */
  predicate FormerIdsAlone(m: Provider) {
    "" !in m.former && m.id !in m.former && forall i, j | 0 <= i < j < |m.former| :: m.former[i] != m.former[j]
  }

  /** Neither of two providers claims an id of the other, and no former id is that of both. */
  predicate Apart(id: string, former: seq<string>, m: Provider) {
    id !in m.former && m.id !in former && forall f | f in m.former :: f !in former
  }

  /** `checkFormerIDs`. */
  predicate FormerIdsFit(s: State, m: Provider) {
    FormerIdsAlone(m) && forall id | id in s.providers && id != m.id :: Apart(id, s.providers[id].former, m)
  }

  /** A vendor is one provider of a single segment, or only providers of two. */
  predicate VendorsAgree(id: string, other: string) { VendorOf(id) == VendorOf(other) ==> Dots(id) == Dots(other) }

  /** `RegisterProvider`. */
  predicate ProviderFits(s: State, m: Provider) {
    && m.sound && ValidProviderId(m.id) && m.id !in s.providers
    && (forall id | id in s.providers :: VendorsAgree(id, m.id))
    && FormerIdsFit(s, m)
  }

  // ---------------------------------------------------------------- operations

  function ProviderOf(s: State, p: string): Provider { if p in s.providers then s.providers[p] else NO_PROVIDER }

  predicate IsFormerTool(s: State, id: string) { exists k | k in s.providers :: id in s.providers[k].renamed }

  predicate IsValid(op: Operation, m: Provider) { if m.serviceLevel then op.validInService else op.validPlain }

  predicate FitsGroups(op: Operation, m: Provider) {
    if m.groups == [] then op.group == "" else op.group != "" && op.group in m.groups
  }

  /** Why one operation is not recorded, next to those known. */
  function CheckOne(s: State, p: string, known: map<string, Operation>, op: Operation): Outcome {
    if op.provider != p || !IsValid(op, ProviderOf(s, p)) || IsFormerTool(s, op.id) then Refused
    else if op.id !in known then Registered
    else if known[op.id].version != op.version then VersionConflict(op.id, known[op.id].version, op.version)
    else Duplicate(op.id, op.version)
  }

  /** The first problem of a batch. */
  function Check(s: State, p: string, known: map<string, Operation>, ops: seq<Operation>): Outcome
    decreases |ops|
  {
    if ops == [] then Registered
    else
      var one := CheckOne(s, p, known, ops[0]);
      if one != Registered then one else Check(s, p, known[ops[0].id := ops[0]], ops[1..])
  }

  function Add(known: map<string, Operation>, ops: seq<Operation>): map<string, Operation>
    decreases |ops|
  {
    if ops == [] then known else Add(known[ops[0].id := ops[0]], ops[1..])
  }

  predicate GroupsFit(operations: map<string, Operation>, p: string, m: Provider) {
    forall id | id in operations && operations[id].provider == p :: FitsGroups(operations[id], m)
  }

  function RegisterOutcome(s: State, p: string, ops: seq<Operation>): Outcome {
    if !ValidProviderId(p) then Refused
    else
      var checked := Check(s, p, s.operations, ops);
      if checked != Registered then checked
      else if GroupsFit(Add(s.operations, ops), p, ProviderOf(s, p)) then Registered
      else Refused
  }

  /** After a registration: also a provider that was never declared is known then, as one that declares nothing. */
  function AfterRegister(s: State, p: string, ops: seq<Operation>): State {
    State(s.providers[p := ProviderOf(s, p)], Add(s.operations, ops))
  }

  // ---------------------------------------------------------------- what a batch adds

  predicate DistinctIds(ops: seq<Operation>) { forall i, j | 0 <= i < j < |ops| :: ops[i].id != ops[j].id }

  /** An operation that is recorded next to those known. */
  predicate IsNew(s: State, p: string, known: map<string, Operation>, op: Operation) {
    op.provider == p && IsValid(op, ProviderOf(s, p)) && !IsFormerTool(s, op.id) && op.id !in known
  }

  lemma {:induction false} CheckExactly(s: State, p: string, known: map<string, Operation>, ops: seq<Operation>)
    ensures Check(s, p, known, ops) == Registered <==>
            DistinctIds(ops) && forall op | op in ops :: IsNew(s, p, known, op)
    decreases |ops|
  {
    if ops != [] {
      var first, rest := ops[0], ops[1..];
      assert ops == [first] + rest;
      CheckExactly(s, p, known[first.id := first], rest);
      if IsNew(s, p, known, first) {
        RestIsNew(s, p, known, first, rest);
      } else {
        assert first in ops;
      }
    }
  }

  lemma RestIsNew(s: State, p: string, known: map<string, Operation>, first: Operation, rest: seq<Operation>)
    ensures DistinctIds([first] + rest) <==> DistinctIds(rest) && forall op | op in rest :: op.id != first.id
    ensures (forall op | op in rest :: IsNew(s, p, known[first.id := first], op)) <==>
            forall op | op in rest :: IsNew(s, p, known, op) && op.id != first.id
  {
    var ops := [first] + rest;
    if DistinctIds(ops) {
      forall op | op in rest ensures op.id != first.id {
        var i :| 0 <= i < |rest| && rest[i] == op;
        assert ops[0].id != ops[i + 1].id;
      }
      forall i, j | 0 <= i < j < |rest| ensures rest[i].id != rest[j].id { assert ops[i + 1].id != ops[j + 1].id; }
    }
  }

  lemma RestDiffers(first: Operation, rest: seq<Operation>)
    ensures DistinctIds([first] + rest) ==> DistinctIds(rest) && forall op | op in rest :: op.id != first.id
  {
    RestIsNew(State(map[], map[]), "", map[], first, rest);
  }

  lemma {:induction false} AddedIds(known: map<string, Operation>, ops: seq<Operation>)
    ensures forall id :: id in Add(known, ops) <==> id in known || exists op :: op in ops && op.id == id
    decreases |ops|
  {
    if ops != [] {
      var first, rest := ops[0], ops[1..];
      assert forall op :: op in ops <==> op == first || op in rest;
      AddedIds(known[first.id := first], rest);
    }
  }

  lemma {:induction false} AddContents(known: map<string, Operation>, ops: seq<Operation>)
    requires DistinctIds(ops)
    ensures forall id :: id in Add(known, ops) <==> id in known || exists op :: op in ops && op.id == id
    ensures forall op | op in ops :: op.id in Add(known, ops) && Add(known, ops)[op.id] == op
    ensures forall id | id in known && forall op | op in ops :: op.id != id :: Add(known, ops)[id] == known[id]
    decreases |ops|
  {
    AddedIds(known, ops);
    if ops != [] {
      var first, rest := ops[0], ops[1..];
      assert ops == [first] + rest;
      RestDiffers(first, rest);
      AddContents(known[first.id := first], rest);
    }
  }

  // ---------------------------------------------------------------- rename tables

  /** What `ValidateRenames` asks of one provider: its former ids, once more, and each entry of its table. */
  predicate RenamesOfFit(s: State, k: string)
    requires k in s.providers
  {
    FormerIdsFit(s, s.providers[k]) && forall was | was in s.providers[k].renamed :: RenameFits(s, k, was)
  }

  /** An entry of the table of provider k that no other provider has too. */
  predicate RenameFits(s: State, k: string, was: string)
    requires k in s.providers && was in s.providers[k].renamed
  {
    EntryFits(s, k, was) && forall j | j in s.providers && j != k :: was !in s.providers[j].renamed
  }

  predicate EntryFits(s: State, k: string, was: string)
    requires k in s.providers && was in s.providers[k].renamed
  {
    var current := s.providers[k].renamed[was];
    && was != "" && current != "" && was !in s.operations && was !in s.providers[k].removed
    && current in s.operations && s.operations[current].provider == k
    && !IsFormerTool(s, current) && !IsRenameTarget(s, was)
  }

  predicate IsRenameTarget(s: State, id: string) {
    exists k | k in s.providers :: id in s.providers[k].renamed.Values
  }

  predicate RenamesFit(s: State) { forall k | k in s.providers :: RenamesOfFit(s, k) }

  /** What a tool id of a configuration stands for today. */
  ghost function Resolve(s: State, id: string): string {
    if k :| k in s.providers && id in s.providers[k].renamed then s.providers[k].renamed[id] else id
  }

  /** In an accepted registry a former id belongs to one provider and resolves in one step to a tool of it, and a
      registered id stands for itself. */
  lemma RenamesResolveOnce(s: State, id: string)
    requires RenamesFit(s)
    ensures Resolve(s, Resolve(s, id)) == Resolve(s, id)
    ensures id in s.operations ==> Resolve(s, id) == id
    ensures forall k | k in s.providers && id in s.providers[k].renamed ::
              Resolve(s, id) == s.providers[k].renamed[id] && Resolve(s, id) in s.operations &&
              s.operations[Resolve(s, id)].provider == k
  {
    forall k | k in s.providers && id in s.providers[k].renamed
      ensures RenameFits(s, k, id) && !IsFormerTool(s, s.providers[k].renamed[id])
    {
      assert RenamesOfFit(s, k);
    }
  }

  // ---------------------------------------------------------------- calls

  datatype Call = Declare(m: Provider) | Operate(p: string, ops: seq<Operation>)

  function Step(s: State, call: Call): Option<State> {
    match call
    case Declare(m) => if ProviderFits(s, m) then Some(s.(providers := s.providers[m.id := m])) else None
    case Operate(p, ops) => if RegisterOutcome(s, p, ops) == Registered then Some(AfterRegister(s, p, ops)) else None
  }

  // ---------------------------------------------------------------- the registry

  /** What is listed for a provider: its declaration and, once it registered operations, their ids and effects. */
  datatype Entry = Entry(declared: Provider, tools: seq<string>, effects: set<string>)

  /** The operations of one provider. */
  function Own(byId: map<string, Operation>, p: string): map<string, Operation> {
    map id | id in byId && byId[id].provider == p :: byId[id]
  }

  function Effects(ops: map<string, Operation>): set<string> { set id | id in ops :: ops[id].effect }

  /** What is listed for a provider whose operations are these. */
  function Listing(declared: Provider, ops: map<string, Operation>): Entry {
    Entry(declared, Sorted(ops.Keys), Effects(ops))
  }

  /** Every listing follows the operations registered. */
  ghost predicate ListingsFollow(metadata: map<string, Entry>, byId: map<string, Operation>) {
    forall p | p in metadata :: metadata[p] == Listing(metadata[p].declared, Own(byId, p))
  }

  /** A listing shows exactly the provider's operations, by id, and exactly their effects. */
  lemma ListingShows(metadata: map<string, Entry>, byId: map<string, Operation>, p: string)
    requires ListingsFollow(metadata, byId) && p in metadata
    ensures Ascending(metadata[p].tools)
    ensures forall id :: id in metadata[p].tools <==> id in byId && byId[id].provider == p
    ensures forall e :: e in metadata[p].effects <==>
              exists id :: id in byId && byId[id].provider == p && byId[id].effect == e
  {
    var own := Own(byId, p);
    assert metadata[p] == Listing(metadata[p].declared, own);
    forall e ensures e in metadata[p].effects <==> exists id :: id in byId && byId[id].provider == p && byId[id].effect == e {
      if id :| id in byId && byId[id].provider == p && byId[id].effect == e { assert id in own; }
    }
  }

  /** Operations are known by their ids, and their providers are known. */
  ghost predicate Keyed(metadata: map<string, Entry>, byId: map<string, Operation>) {
    forall id | id in byId :: byId[id].id == id && byId[id].provider in metadata
  }

  lemma KeyedAfter(metadata: map<string, Entry>, before: map<string, Operation>, ops: seq<Operation>, p: string, e: Entry)
    requires Keyed(metadata, before) && DistinctIds(ops) && forall op | op in ops :: op.provider == p
    ensures Keyed(metadata[p := e], Add(before, ops))
  {
    AddContents(before, ops);
  }

  lemma ListedAnew(metadata: map<string, Entry>, before: map<string, Operation>, byId: map<string, Operation>,
                   p: string, declared: Provider)
    requires ListingsFollow(metadata, before) && forall q | q != p :: Own(byId, q) == Own(before, q)
    ensures ListingsFollow(metadata[p := Listing(declared, Own(byId, p))], byId)
  {
  }

  lemma OthersKeepTheirs(before: map<string, Operation>, ops: seq<Operation>, p: string, q: string)
    requires DistinctIds(ops) && (forall op | op in ops :: op.provider == p && op.id !in before) && q != p
    ensures Own(Add(before, ops), q) == Own(before, q)
  {
    AddContents(before, ops);
    var a, b := Own(Add(before, ops), q), Own(before, q);
    assert forall id :: id in a <==> id in b;
  }

  /** With a batch recorded, listing its provider anew is all there is to do. */
  lemma ListedAfter(metadata: map<string, Entry>, before: map<string, Operation>, ops: seq<Operation>, p: string,
                    declared: Provider)
    requires ListingsFollow(metadata, before) && DistinctIds(ops)
    requires forall op | op in ops :: op.provider == p && op.id !in before
    ensures ListingsFollow(metadata[p := Listing(declared, Own(Add(before, ops), p))], Add(before, ops))
  {
    forall q | q != p ensures Own(Add(before, ops), q) == Own(before, q) { OthersKeepTheirs(before, ops, p, q); }
    ListedAnew(metadata, before, Add(before, ops), p, declared);
  }

  function DeclaredOf(metadata: map<string, Entry>): map<string, Provider> {
    map k | k in metadata :: metadata[k].declared
  }

  lemma DeclaredOneMore(metadata: map<string, Entry>, p: string, e: Entry)
    ensures DeclaredOf(metadata[p := e]) == DeclaredOf(metadata)[p := e.declared]
  {
  }

  /** Operations by provider agree with operations by id. */
  ghost predicate Agrees(byId: map<string, Operation>, byProvider: map<string, map<string, Operation>>) {
    && (forall p, id :: p in byProvider && id in byProvider[p] ==> id in byId && byId[id] == byProvider[p][id] &&
                                                                    byId[id].provider == p)
    && forall id | id in byId :: byId[id].provider in byProvider && id in byProvider[byId[id].provider]
  }

  lemma AgreesWithout(byId: map<string, Operation>, byProvider: map<string, map<string, Operation>>, p: string, gone: string)
    requires Agrees(byId, byProvider) && gone in byId && byId[gone].provider == p
    ensures p in byProvider && Agrees(byId - {gone}, byProvider[p := byProvider[p] - {gone}])
  {
  }

  lemma ListingIsOwn(byId: map<string, Operation>, byProvider: map<string, map<string, Operation>>, p: string)
    requires Agrees(byId, byProvider)
    ensures (if p in byProvider then byProvider[p] else map[]) == Own(byId, p)
  {
    var ops := if p in byProvider then byProvider[p] else map[];
    assert forall id :: id in ops <==> id in Own(byId, p);
  }

  /** A batch taken back up to its operation i. */
  ghost predicate StillThere(before: map<string, Operation>, ops: seq<Operation>, i: nat, byId: map<string, Operation>)
    requires i <= |ops|
  {
    && (forall id | id in before :: id in byId && byId[id] == before[id])
    && (forall k | i <= k < |ops| :: ops[k].id in byId && byId[ops[k].id] == ops[k])
    && forall id | id in byId :: id in before || exists k :: i <= k < |ops| && ops[k].id == id
  }

  lemma OneLess(before: map<string, Operation>, ops: seq<Operation>, i: nat, byId: map<string, Operation>)
    requires i < |ops| && DistinctIds(ops) && ops[i].id !in before && StillThere(before, ops, i, byId)
    ensures StillThere(before, ops, i + 1, byId - {ops[i].id})
  {
    var after := byId - {ops[i].id};
    forall k | i + 1 <= k < |ops| ensures ops[k].id in after && after[ops[k].id] == ops[k] {
      assert ops[i].id != ops[k].id;
    }
    forall id | id in after ensures id in before || exists k :: i + 1 <= k < |ops| && ops[k].id == id {
      if id !in before {
        var k :| i <= k < |ops| && ops[k].id == id;
        assert k != i;
      }
    }
  }

  /** The tables of some providers fit, each by itself and next to each other. */
  ghost predicate TablesFit(s: State, done: set<string>)
    requires done <= s.providers.Keys
  {
    && (forall k | k in done :: FormerIdsFit(s, s.providers[k]))
    && (forall k | k in done :: forall was | was in s.providers[k].renamed :: EntryFits(s, k, was))
    && forall k, j | k in done && j in done && k != j :: s.providers[k].renamed.Keys !! s.providers[j].renamed.Keys
  }

  lemma OneMoreTable(s: State, done: set<string>, k: string, declared: set<string>)
    requires done <= s.providers.Keys && TablesFit(s, done) && k in s.providers && FormerIdsFit(s, s.providers[k])
    requires forall id :: id in declared <==> exists j :: j in done && id in s.providers[j].renamed
    requires forall was | was in s.providers[k].renamed :: was !in declared && EntryFits(s, k, was)
    ensures TablesFit(s, done + {k})
  {
  }

  class Registry {
    var byId: map<string, Operation>
    var byProvider: map<string, map<string, Operation>>
    var metadata: map<string, Entry>

    ghost function Contents(): State
      reads this
    {
      State(DeclaredOf(metadata), byId)
    }

    /** The operations of a provider, none for one without. */
    function OfProvider(p: string): (ops: map<string, Operation>)
      reads this
    {
      if p in byProvider then byProvider[p] else map[]
    }

    /** Both lookups agree. */
    ghost predicate Agree()
      reads this
    {
      Agrees(byId, byProvider)
    }

    /** Both lookups agree, and every listing follows them. */
    ghost predicate Valid()
      reads this
    {
      Agree() && ListingsFollow(metadata, byId) && Keyed(metadata, byId)
    }

    constructor ()
      ensures Valid() && Contents() == State(map[], map[])
    {
      byId, byProvider, metadata := map[], map[], map[];
    }

    /** `checkFormerIDs`. */
    method CheckFormerIds(m: Provider) returns (fits: bool)
      ensures fits == FormerIdsFit(Contents(), m)
    {
      var seen: set<string> := {};
      for i := 0 to |m.former|
        invariant seen == set f | f in m.former[..i]
        invariant "" !in seen && m.id !in seen && forall j, k | 0 <= j < k < i :: m.former[j] != m.former[k]
        invariant forall f | f in seen :: f !in metadata
      {
        var f := m.former[i];
        assert m.former[..i + 1] == m.former[..i] + [f] && f in m.former;
        if f == "" || f in seen || f == m.id {
          return false;
        }
        seen := seen + {f};
        if f in metadata {
          assert !Apart(f, Contents().providers[f].former, m);
          return false;
        }
      }
      assert m.former[..|m.former|] == m.former;
      var rest := metadata.Keys;
      while rest != {}
        invariant rest <= metadata.Keys
        invariant forall id | id in metadata && id !in rest && id != m.id :: Apart(id, metadata[id].declared.former, m)
      {
        var id :| id in rest;
        if id != m.id && !Apart(id, metadata[id].declared.former, m) {
          assert Contents().providers[id] == metadata[id].declared;
          return false;
        }
        rest := rest - {id};
      }
      return true;
    }

    method CheckVendors(m: Provider) returns (agree: bool)
      ensures agree == forall id | id in metadata :: VendorsAgree(id, m.id)
    {
      var rest := metadata.Keys;
      while rest != {}
        invariant rest <= metadata.Keys
        invariant forall id | id in metadata && id !in rest :: VendorsAgree(id, m.id)
      {
        var id :| id in rest;
        if !VendorsAgree(id, m.id) {
          return false;
        }
        rest := rest - {id};
      }
      return true;
    }

    method RegisterProvider(m: Provider) returns (ok: bool)
      requires Valid()
      modifies this`metadata
      ensures Valid()
      ensures ok == ProviderFits(old(Contents()), m)
      ensures Contents() == if ok then Step(old(Contents()), Declare(m)).value else old(Contents())
    {
      if !ValidProviderId(m.id) || m.id in metadata {
        return false;
      }
      var agree := CheckVendors(m);
      var fits := CheckFormerIds(m);
      ok := m.sound && agree && fits;
      if ok {
        ListedAnew(metadata, byId, byId, m.id, m);
        DeclaredOneMore(metadata, m.id, Listing(m, Own(byId, m.id)));
        List(m.id, m);
      }
    }

    /** Lists a provider with what is registered for it. */
    method List(p: string, declared: Provider)
      requires Agree()
      modifies this`metadata
      ensures metadata == old(metadata)[p := Listing(declared, Own(byId, p))]
    {
      ListingIsOwn(byId, byProvider, p);
      metadata := metadata[p := Listing(declared, OfProvider(p))];
    }

    /** Records one operation in both lookups. */
    method Put(p: string, op: Operation)
      requires Agree() && op.provider == p && op.id !in byId
      modifies this`byId, this`byProvider
      ensures Agree() && byId == old(byId)[op.id := op]
    {
      byProvider := byProvider[p := OfProvider(p)[op.id := op]];
      byId := byId[op.id := op];
    }

    /** Takes one back. */
    method Drop(p: string, op: Operation)
      requires Agree() && op.id in byId && byId[op.id].provider == p
      modifies this`byId, this`byProvider
      ensures Agree() && byId == old(byId) - {op.id}
    {
      AgreesWithout(byId, byProvider, p, op.id);
      byProvider := byProvider[p := byProvider[p] - {op.id}];
      byId := byId - {op.id};
    }

    /** `checkGroups`. */
    method CheckGroups(p: string, m: Provider) returns (fit: bool)
      requires Agree()
      ensures fit == GroupsFit(byId, p, m)
    {
      var ops := OfProvider(p);
      ListingIsOwn(byId, byProvider, p);
      var rest := ops.Keys;
      while rest != {}
        invariant rest <= ops.Keys
        invariant forall id | id in ops && id !in rest :: FitsGroups(byId[id], m)
      {
        var id :| id in rest;
        if !FitsGroups(ops[id], m) {
          assert id in byId && byId[id].provider == p;
          return false;
        }
        rest := rest - {id};
      }
      return true;
    }

    /** The first problem of a batch, found next to the operations known and those before it in the batch. */
    method Stage(p: string, ops: seq<Operation>) returns (o: Outcome)
      ensures o == Check(Contents(), p, byId, ops)
    {
      var batch: map<string, Operation> := map[];
      ghost var s := Contents();
      assert byId + batch == byId;
      for i := 0 to |ops|
        invariant Check(s, p, byId, ops) == Check(s, p, byId + batch, ops[i..])
      {
        var op := ops[i];
        assert ops[i..][0] == op && ops[i..][1..] == ops[i + 1..];
        assert (byId + batch)[op.id := op] == byId + batch[op.id := op];
        var one := CheckOperation(p, batch, op);
        if one != Registered {
          return one;
        }
        batch := batch[op.id := op];
      }
      return Registered;
    }

    method IsFormer(id: string) returns (former: bool)
      ensures former == IsFormerTool(Contents(), id)
    {
      var rest := metadata.Keys;
      while rest != {}
        invariant rest <= metadata.Keys
        invariant forall k | k in metadata && k !in rest :: id !in metadata[k].declared.renamed
      {
        var k :| k in rest;
        if id in metadata[k].declared.renamed {
          assert k in Contents().providers;
          return true;
        }
        rest := rest - {k};
      }
      return false;
    }

    method CheckOperation(p: string, batch: map<string, Operation>, op: Operation) returns (o: Outcome)
      ensures o == CheckOne(Contents(), p, byId + batch, op)
    {
      var m := if p in metadata then metadata[p].declared else NO_PROVIDER;
      if op.provider != p || !IsValid(op, m) {
        return Refused;
      }
      var former := IsFormer(op.id);
      if former {
        return Refused;
      }
      if op.id !in batch && op.id !in byId {
        return Registered;
      }
      var known := if op.id in batch then batch[op.id] else byId[op.id];
      return if known.version != op.version then VersionConflict(op.id, known.version, op.version)
             else Duplicate(op.id, op.version);
    }

    method PutAll(p: string, ops: seq<Operation>)
      requires Agree() && DistinctIds(ops) && forall op | op in ops :: op.provider == p && op.id !in byId
      modifies this`byId, this`byProvider
      ensures Agree() && byId == Add(old(byId), ops)
    {
      for i := 0 to |ops|
        invariant Agree() && Add(byId, ops[i..]) == Add(old(byId), ops)
        invariant forall k | i <= k < |ops| :: ops[k].id !in byId
      {
        assert ops[i] in ops && ops[i..][1..] == ops[i + 1..];
        Put(p, ops[i]);
      }
    }

    method DropAll(p: string, ops: seq<Operation>, ghost before: map<string, Operation>)
      requires Agree() && DistinctIds(ops) && (forall op | op in ops :: op.provider == p && op.id !in before)
      requires byId == Add(before, ops)
      modifies this`byId, this`byProvider
      ensures Agree() && byId == before
    {
      AddContents(before, ops);
      for i := 0 to |ops|
        invariant Agree() && StillThere(before, ops, i, byId)
      {
        assert ops[i] in ops;
        OneLess(before, ops, i, byId);
        Drop(p, ops[i]);
      }
    }

    /** `Register`: the whole batch is recorded, or nothing. */
    method Register(p: string, ops: seq<Operation>) returns (o: Outcome)
      requires Valid()
      modifies this
      ensures Valid()
      ensures o == RegisterOutcome(old(Contents()), p, ops)
      ensures Contents() == if o == Registered then AfterRegister(old(Contents()), p, ops) else old(Contents())
      ensures o != Registered ==> metadata == old(metadata) && byId == old(byId)
    {
      if !ValidProviderId(p) {
        return Refused;
      }
      o := Stage(p, ops);
      if o != Registered {
        return;
      }
      CheckExactly(Contents(), p, byId, ops);
      var recorded := Record(p, ops);
      o := if recorded then Registered else Refused;
    }

    /** Records a batch without a problem, and takes it back where a group does not fit. */
    method Record(p: string, ops: seq<Operation>) returns (recorded: bool)
      requires Valid() && DistinctIds(ops) && forall op | op in ops :: IsNew(Contents(), p, byId, op)
      modifies this
      ensures Valid()
      ensures recorded == GroupsFit(Add(old(byId), ops), p, ProviderOf(old(Contents()), p))
      ensures Contents() == if recorded then AfterRegister(old(Contents()), p, ops) else old(Contents())
      ensures !recorded ==> metadata == old(metadata) && byId == old(byId)
    {
      ghost var before := byId;
      AddContents(byId, ops);
      PutAll(p, ops);
      var declared := if p in metadata then metadata[p].declared else NO_PROVIDER;
      recorded := CheckGroups(p, declared);
      if recorded {
        ListedAfter(metadata, before, ops, p, declared);
        KeyedAfter(metadata, before, ops, p, Listing(declared, Own(byId, p)));
        DeclaredOneMore(metadata, p, Listing(declared, Own(byId, p)));
        List(p, declared);
      } else {
        DropAll(p, ops, before);
      }
    }

    /** The former tool ids of all providers, and what they stand for. */
    method CollectRenames() returns (former: set<string>, targets: set<string>)
      ensures forall id :: id in former <==> IsFormerTool(Contents(), id)
      ensures forall id :: id in targets <==> IsRenameTarget(Contents(), id)
    {
      former, targets := {}, {};
      ghost var s := Contents();
      var rest := metadata.Keys;
      while rest != {}
        invariant rest <= metadata.Keys
        invariant forall id :: id in former <==> exists k :: k in s.providers && k !in rest && id in s.providers[k].renamed
        invariant forall id :: id in targets <==>
                    exists k :: k in s.providers && k !in rest && id in s.providers[k].renamed.Values
      {
        var k :| k in rest;
        former := former + metadata[k].declared.renamed.Keys;
        targets := targets + metadata[k].declared.renamed.Values;
        rest := rest - {k};
      }
    }

    /** One table, next to the ids declared by the tables before it. */
    method CheckTable(k: string, former: set<string>, targets: set<string>, declared: set<string>) returns (ok: bool)
      requires k in metadata
      requires forall id :: id in former <==> IsFormerTool(Contents(), id)
      requires forall id :: id in targets <==> IsRenameTarget(Contents(), id)
      ensures ok == forall was | was in metadata[k].declared.renamed :: was !in declared && EntryFits(Contents(), k, was)
    {
      var m := metadata[k].declared;
      var rest := m.renamed.Keys;
      while rest != {}
        invariant rest <= m.renamed.Keys
        invariant forall was | was in m.renamed && was !in rest :: was !in declared && EntryFits(Contents(), k, was)
      {
        var was :| was in rest;
        var current := m.renamed[was];
        if was == "" || current == "" || was in declared || current in former || was in targets || was in byId ||
           was in m.removed || current !in byId || byId[current].provider != k {
          assert Contents().providers[k] == m;
          return false;
        }
        rest := rest - {was};
      }
      return true;
    }

    method ValidateRenames() returns (ok: bool)
      ensures ok == RenamesFit(Contents())
    {
      var former, targets := CollectRenames();
      var declared: set<string> := {};
      var rest := metadata.Keys;
      ghost var s := Contents();
      while rest != {}
        invariant rest <= metadata.Keys
        invariant forall id :: id in declared <==> exists k :: k in s.providers && k !in rest && id in s.providers[k].renamed
        invariant TablesFit(s, metadata.Keys - rest)
      {
        var k :| k in rest;
        var m := metadata[k].declared;
        var ids := CheckFormerIds(m);
        var table := CheckTable(k, former, targets, declared);
        if !ids || !table {
          assert !RenamesOfFit(s, k);
          return false;
        }
        OneMoreTable(s, metadata.Keys - rest, k, declared);
        rest := rest - {k};
        assert metadata.Keys - rest == metadata.Keys - (rest + {k}) + {k};
        declared := declared + m.renamed.Keys;
      }
      assert metadata.Keys - rest == s.providers.Keys;
      return true;
    }
  }
}
