/** Result compaction and the output schema published for compacted results
    (internal/application/compact.go). */
module Compact {
  import opened Json
  import opened Schema
  import opened Wrappers

  // ---------------------------------------------------------------- dropping empty members

  predicate IsEmpty(v: Json) {
    v.Null? || (v.Arr? && v.items == []) || (v.Obj? && v.members == map[])
  }

  /** The value without its empty object members; array entries and the root are kept, cleaned. */
  function Clean(v: Json): Json
    decreases v
  {
    match v
    case Obj(m) => Obj(map k | k in m && !IsEmpty(Clean(m[k])) :: Clean(m[k]))
    case Arr(items) => Arr(seq(|items|, i requires 0 <= i < |items| => Clean(items[i])))
    case _ => v
  }

  /** `dropEmpty`. */
  method DropEmpty(value: Json) returns (r: Json)
    ensures r == Clean(value)
    decreases value, 1
  {
    match value
    case Obj(m) =>
      var members := DropEmptyMembers(value, m);
      r := Obj(members);
    case Arr(items) =>
      var entries := DropEmptyEntries(value, items);
      r := Arr(entries);
    case _ =>
      r := value;
  }

  /** Members are deleted and replaced while the object is walked, in any order. */
  method DropEmptyMembers(ghost value: Json, m: map<string, Json>) returns (members: map<string, Json>)
    requires value == Obj(m)
    ensures Obj(members) == Clean(value)
    decreases value, 0
  {
    members := m;
    var todo := m.Keys;
    while todo != {}
      invariant todo <= m.Keys
      invariant forall k :: k in members <==> k in m && (k in todo || !IsEmpty(Clean(m[k])))
      invariant forall k | k in members :: members[k] == if k in todo then m[k] else Clean(m[k])
      decreases |todo|
    {
      var k :| k in todo;
      var child := DropEmpty(m[k]);
      if IsEmpty(child) {
        members := members - {k};
      } else {
        members := members[k := child];
      }
      todo := todo - {k};
    }
    assert members == Clean(value).members;
  }

  method DropEmptyEntries(ghost value: Json, items: seq<Json>) returns (entries: seq<Json>)
    requires value == Arr(items)
    ensures Arr(entries) == Clean(value)
    decreases value, 0
  {
    entries := items;
    for i := 0 to |items|
      invariant |entries| == |items|
      invariant forall j | 0 <= j < |items| :: entries[j] == if j < i then Clean(items[j]) else items[j]
    {
      var child := DropEmpty(items[i]);
      entries := entries[i := child];
    }
    assert entries == Clean(value).items;
  }

  /** No object at any depth has an empty member. */
  predicate NoEmptyMembers(v: Json)
    decreases v
  {
    match v
    case Obj(m) => forall k | k in m :: !IsEmpty(m[k]) && NoEmptyMembers(m[k])
    case Arr(items) => forall i | 0 <= i < |items| :: NoEmptyMembers(items[i])
    case _ => true
  }

  lemma {:induction false} CleanHasNoEmptyMembers(v: Json)
    ensures NoEmptyMembers(Clean(v))
  {
    match v
    case Obj(m) =>
      forall k | k in Clean(v).members ensures NoEmptyMembers(Clean(v).members[k]) {
        CleanHasNoEmptyMembers(m[k]);
      }
    case Arr(items) =>
      forall i | 0 <= i < |items| ensures NoEmptyMembers(Clean(items[i])) {
        CleanHasNoEmptyMembers(items[i]);
      }
    case _ =>
  }

  /** The values compaction leaves alone are exactly those without an empty member. */
  lemma {:induction false} CleanFixesExactly(v: Json)
    ensures Clean(v) == v <==> NoEmptyMembers(v)
  {
    CleanHasNoEmptyMembers(v);
    if NoEmptyMembers(v) {
      match v
      case Obj(m) =>
        forall k | k in m ensures Clean(m[k]) == m[k] {
          CleanFixesExactly(m[k]);
        }
        assert Clean(v).members == m;
      case Arr(items) =>
        forall i | 0 <= i < |items| ensures Clean(items[i]) == items[i] {
          CleanFixesExactly(items[i]);
        }
        assert Clean(v).items == items;
      case _ =>
    }
  }

  lemma CleanIsIdempotent(v: Json)
    ensures Clean(Clean(v)) == Clean(v)
  {
    CleanHasNoEmptyMembers(v);
    CleanFixesExactly(Clean(v));
  }

  datatype Step = Member(name: string) | Index(i: nat)

  /** The value at a path, if the path leads anywhere. */
  function At(v: Json, path: seq<Step>): Option<Json>
    decreases |path|
  {
    if path == [] then Some(v)
    else match path[0]
      case Member(k) => if v.Obj? && k in v.members then At(v.members[k], path[1..]) else None
      case Index(i) => if v.Arr? && i < |v.items| then At(v.items[i], path[1..]) else None
  }

  /** Nothing is invented or moved: what a compacted answer has at a path is the compacted original there. */
  lemma {:induction false} CleanKeepsPlaces(v: Json, path: seq<Step>)
    requires At(Clean(v), path).Some?
    ensures At(v, path).Some? && At(Clean(v), path).value == Clean(At(v, path).value)
    decreases |path|
  {
    if path != [] {
      match path[0]
      case Member(k) => CleanKeepsPlaces(v.members[k], path[1..]);
      case Index(i) => CleanKeepsPlaces(v.items[i], path[1..]);
    }
  }

  /** Nothing but emptiness is lost: a value that is not empty once cleaned keeps its path. */
  lemma {:induction false} CleanLosesOnlyEmpty(v: Json, path: seq<Step>)
    requires At(v, path).Some? && !IsEmpty(Clean(At(v, path).value))
    ensures At(Clean(v), path) == Some(Clean(At(v, path).value)) && !IsEmpty(Clean(v))
    decreases |path|
  {
    if path != [] {
      match path[0]
      case Member(k) =>
        CleanLosesOnlyEmpty(v.members[k], path[1..]);
        assert k in Clean(v).members;
      case Index(i) => CleanLosesOnlyEmpty(v.items[i], path[1..]);
    }
  }

  // ---------------------------------------------------------------- relaxing the schema

  function Without(names: seq<string>, gone: set<string>): (kept: seq<string>)
    ensures forall r :: r in kept <==> r in names && r !in gone
  {
    if names == [] then []
    else if names[0] in gone then Without(names[1..], gone)
    else [names[0]] + Without(names[1..], gone)
  }

  predicate ZeroOrAbsent(n: Option<int>) { n.None? || n.value == 0 }

  /** The properties `relaxSchema` reports as possibly empty. */
  function Droppable(s: Schema): set<string>
    decreases s, 0
  {
    set k | k in s.properties && Reports(s.properties[k])
  }

  function Kept(s: Schema): seq<string>
    decreases s, 1
  {
    Without(s.required, Droppable(s))
  }

  /** What `relaxSchema` reports: the value can be empty and then leaves its parent. */
  predicate Reports(s: Schema)
    decreases s, 2
  {
    match s.kind
    case None => true
    case Some(OtherKind(name)) => name == ""
    case Some(ArrayKind) => ZeroOrAbsent(s.minItems)
    case Some(ObjectKind) => Kept(s) == [] && ZeroOrAbsent(s.minProperties)
    case _ => false
  }

  function RelaxedProperties(s: Schema): map<string, Schema>
    decreases s, 0
  {
    map k | k in s.properties :: Relax(s.properties[k])
  }

  /** The published form of a schema. */
  function Relax(s: Schema): Schema
    decreases s, 1
  {
    s.(properties := RelaxedProperties(s),
       items := if s.items.Some? then Some(Relax(s.items.value)) else None,
       required := Kept(s))
  }

  /** `relaxSchema`: the relaxed properties decide which names stay required. */
  method RelaxSchema(schema: Schema) returns (relaxed: Schema, canBeEmpty: bool)
    ensures relaxed == Relax(schema) && canBeEmpty == Reports(schema)
    decreases schema, 1
  {
    var items := schema.items;
    if items.Some? {
      var r, _ := RelaxSchema(items.value);
      items := Some(r);
    }
    var properties, droppable := RelaxProperties(schema);
    var kept := KeepRequired(schema.required, droppable);
    canBeEmpty := match schema.kind
      case None => true
      case Some(OtherKind(name)) => name == ""
      case Some(ArrayKind) => ZeroOrAbsent(schema.minItems)
      case Some(ObjectKind) => kept == [] && ZeroOrAbsent(schema.minProperties)
      case _ => false;
    relaxed := schema.(properties := properties, items := items, required := kept);
  }

  /** The loop of `relaxSchema` over the required names. */
  method KeepRequired(required: seq<string>, droppable: set<string>) returns (kept: seq<string>)
    ensures kept == Without(required, droppable)
  {
    kept := [];
    for i := 0 to |required|
      invariant kept + Without(required[i..], droppable) == Without(required, droppable)
    {
      WithoutStep(required, droppable, i, kept);
      if required[i] !in droppable {
        kept := kept + [required[i]];
      }
    }
  }

  lemma WithoutStep(names: seq<string>, gone: set<string>, i: nat, kept: seq<string>)
    requires i < |names|
    ensures kept + Without(names[i..], gone) ==
            (if names[i] in gone then kept else kept + [names[i]]) + Without(names[i + 1..], gone)
  {
    assert names[i..][0] == names[i] && names[i..][1..] == names[i + 1..];
    if names[i] !in gone { Regrouped(kept, names[i], Without(names[i + 1..], gone)); }
  }

  lemma Regrouped(a: seq<string>, x: string, b: seq<string>)
    ensures a + ([x] + b) == (a + [x]) + b
  {
  }

  /** The loop of `relaxSchema` over the properties, in any order. */
  method RelaxProperties(schema: Schema) returns (properties: map<string, Schema>, droppable: set<string>)
    ensures properties == RelaxedProperties(schema) && droppable == Droppable(schema)
    decreases schema, 0
  {
    properties, droppable := schema.properties, {};
    var todo := schema.properties.Keys;
    while todo != {}
      invariant todo <= schema.properties.Keys == properties.Keys
      invariant forall k | k in properties ::
          properties[k] == if k in todo then schema.properties[k] else Relax(schema.properties[k])
      invariant forall k :: k in droppable <==>
          k in schema.properties && k !in todo && Reports(schema.properties[k])
      decreases |todo|
    {
      var k :| k in todo;
      var r, empty := RelaxSchema(schema.properties[k]);
      if empty {
        droppable := droppable + {k};
      }
      properties, todo := properties[k := r], todo - {k};
    }
  }

  lemma {:induction false} WithoutNone(names: seq<string>, gone: set<string>)
    requires forall r | r in names :: r !in gone
    ensures Without(names, gone) == names
  {
    if names != [] {
      assert names[0] in names;
      forall r | r in names[1..] ensures r !in gone { assert r in names; }
      WithoutNone(names[1..], gone);
    }
  }

  /** Relaxing is stable: a published schema is its own published form, and reports the same. */
  lemma {:induction false} RelaxIsIdempotent(s: Schema)
    ensures Relax(Relax(s)) == Relax(s) && Reports(Relax(s)) == Reports(s)
  {
    forall k | k in s.properties
      ensures Relax(Relax(s.properties[k])) == Relax(s.properties[k])
      ensures Reports(Relax(s.properties[k])) == Reports(s.properties[k])
    {
      RelaxIsIdempotent(s.properties[k]);
    }
    if s.items.Some? {
      RelaxIsIdempotent(s.items.value);
    }
    assert Droppable(Relax(s)) == Droppable(s);
    WithoutNone(Kept(s), Droppable(s));
    assert Relax(Relax(s)).properties == Relax(s).properties;
  }

  // ---------------------------------------------------------------- nothing but required names is given up

  /** Every object has the names its schema requires, at every place the schema reaches. */
  predicate HasRequired(s: Schema, v: Json)
    decreases s
  {
    match v
    case Obj(m) =>
      (forall r | r in s.required :: r in m) && forall k | k in m && k in s.properties :: HasRequired(s.properties[k], m[k])
    case Arr(items) => s.items.Some? ==> forall i | 0 <= i < |items| :: HasRequired(s.items.value, items[i])
    case _ => true
  }

  lemma RelaxedParts(s: Schema)
    ensures Relax(s).properties.Keys == s.properties.Keys
    ensures forall k | k in s.properties :: Relax(s).properties[k] == Relax(s.properties[k])
  {
    assert Relax(s).properties == RelaxedProperties(s);
  }

  lemma {:induction false} AcceptedIsPublished(s: Schema, v: Json)
    requires Accepts(s, v)
    ensures Accepts(Relax(s), v) && HasRequired(s, v)
    decreases s
  {
    if v.Obj? {
      forall k | k in v.members && k in s.properties
        ensures Accepts(Relax(s.properties[k]), v.members[k]) && HasRequired(s.properties[k], v.members[k])
      {
        AcceptedIsPublished(s.properties[k], v.members[k]);
      }
    } else if v.Arr? && s.items.Some? {
      forall i | 0 <= i < |v.items|
        ensures Accepts(Relax(s.items.value), v.items[i]) && HasRequired(s.items.value, v.items[i])
      {
        AcceptedIsPublished(s.items.value, v.items[i]);
      }
    }
  }

  lemma {:induction false} PublishedIsAccepted(s: Schema, v: Json)
    requires Accepts(Relax(s), v) && HasRequired(s, v)
    ensures Accepts(s, v)
    decreases s
  {
    if v.Obj? {
      var relaxed := Relax(s).properties;
      RelaxedParts(s);
      forall k | k in v.members && k in s.properties ensures Accepts(s.properties[k], v.members[k]) {
        assert Accepts(relaxed[k], v.members[k]);
        PublishedIsAccepted(s.properties[k], v.members[k]);
      }
    } else if v.Arr? && s.items.Some? {
      forall i | 0 <= i < |v.items| ensures Accepts(s.items.value, v.items[i]) {
        PublishedIsAccepted(s.items.value, v.items[i]);
      }
    }
  }

  /** The published schema forbids what the schema forbids, except that names may be missing. */
  lemma PublishedForbidsTheRest(s: Schema, v: Json)
    ensures Accepts(s, v) <==> Accepts(Relax(s), v) && HasRequired(s, v)
  {
    if Accepts(s, v) { AcceptedIsPublished(s, v); }
    if Accepts(Relax(s), v) && HasRequired(s, v) { PublishedIsAccepted(s, v); }
  }

  /** Two schemas that are the same but for the required names, of which `t` has some of those of `s`. */
  predicate RequiresLess(s: Schema, t: Schema)
    decreases s
  {
    && t == s.(required := t.required, properties := t.properties, items := t.items)
    && (forall r | r in t.required :: r in s.required)
    && t.properties.Keys == s.properties.Keys
    && (forall k | k in s.properties :: RequiresLess(s.properties[k], t.properties[k]))
    && (match s.items case None => t.items.None? case Some(i) => t.items.Some? && RequiresLess(i, t.items.value))
  }

  /** So it says under every other keyword what it said, also where no answer is held against it. */
  lemma {:induction false} RelaxRequiresLess(s: Schema)
    ensures RequiresLess(s, Relax(s))
    decreases s
  {
    forall k | k in s.properties ensures RequiresLess(s.properties[k], Relax(s.properties[k])) {
      RelaxRequiresLess(s.properties[k]);
    }
    if s.items.Some? { RelaxRequiresLess(s.items.value); }
  }

  // ---------------------------------------------------------------- which schemas clean to empty

  /** Decided on the schema alone: some accepted value cleans to an empty one; see EmptiesIsExact. */
  predicate Empties(s: Schema)
    decreases s
  {
    if s.enum.Some? then exists e | e in s.enum.value :: Accepts(s, e) && IsEmpty(Clean(e))
    else match s.kind
      case None => true
      case Some(NullKind) => true
      case Some(ArrayKind) => WithinInt(s.minItems, 0, s.maxItems)
      case Some(ObjectKind) =>
        forall r | r in s.required :: if r in s.properties then Empties(s.properties[r]) else s.additional
      case _ => false
  }

  /** An accepted value that cleans to an empty one. */
  ghost function EmptyWitness(s: Schema): (v: Json)
    requires Empties(s)
    ensures Accepts(s, v) && IsEmpty(Clean(v))
    decreases s
  {
    if s.enum.Some? then
      var e :| e in s.enum.value && Accepts(s, e) && IsEmpty(Clean(e)); e
    else match s.kind
      case Some(ArrayKind) => Arr([])
      case Some(ObjectKind) =>
        var m := map r | r in s.required :: if r in s.properties then EmptyWitness(s.properties[r]) else Null;
        assert Clean(Obj(m)).members == map[];
        Obj(m)
      case _ => Null
  }

  lemma {:induction false} EmptiesFromValue(s: Schema, v: Json)
    requires Accepts(s, v) && IsEmpty(Clean(v))
    ensures Empties(s)
    decreases s
  {
    if s.enum.None? && s.kind == Some(ObjectKind) {
      forall r | r in s.required
        ensures if r in s.properties then Empties(s.properties[r]) else s.additional
      {
        assert r !in Clean(v).members;
        if r in s.properties {
          EmptiesFromValue(s.properties[r], v.members[r]);
        }
      }
    }
  }

  /** `Empties` says exactly whether some accepted value cleans to null, `[]` or `{}`; no side condition. */
  lemma EmptiesIsExact(s: Schema)
    ensures Empties(s) <==> exists v :: Accepts(s, v) && IsEmpty(Clean(v))
  {
    if Empties(s) {
      var v := EmptyWitness(s);
      assert Accepts(s, v) && IsEmpty(Clean(v));
    }
    if v :| Accepts(s, v) && IsEmpty(Clean(v)) {
      EmptiesFromValue(s, v);
    }
  }

  /** The schemas the registry's tools use: what `relaxSchema` reads means what it checks for. */
  predicate Regular(s: Schema)
    decreases s
  {
    && s.enum.None?
    && s.kind != Some(NullKind) && s.kind != Some(OtherKind(""))
    && ZeroOrAbsent(s.minProperties)
    && (s.minItems.Some? ==> s.minItems.value >= 0) && (s.maxItems.Some? ==> s.maxItems.value >= 0)
    && (forall r | r in s.required :: r in s.properties)
    && (forall k | k in s.properties :: Regular(s.properties[k]))
    && (s.items.Some? ==> Regular(s.items.value))
  }

  /** Relaxation is exact: on regular schemas the report holds exactly when some accepted value cleans to
      an empty one. */
  lemma {:induction false} ReportIsExact(s: Schema)
    requires Regular(s)
    ensures Reports(s) <==> Empties(s)
    ensures Reports(s) <==> exists v :: Accepts(s, v) && IsEmpty(Clean(v))
  {
    forall k | k in s.properties ensures Reports(s.properties[k]) <==> Empties(s.properties[k]) {
      ReportIsExact(s.properties[k]);
    }
    if s.kind == Some(ObjectKind) { ObjectReport(s); }
    EmptiesIsExact(s);
  }

  lemma ObjectReport(s: Schema)
    requires Regular(s) && s.kind == Some(ObjectKind)
    requires forall k | k in s.properties :: Reports(s.properties[k]) <==> Empties(s.properties[k])
    ensures Reports(s) <==> Empties(s)
  {
    if Kept(s) != [] {
      var r := Kept(s)[0];
      assert r in s.required && r !in Droppable(s);
      assert !Empties(s.properties[r]);
    } else {
      forall r | r in s.required ensures Empties(s.properties[r]) {
        assert r !in Kept(s);
        assert r in Droppable(s);
      }
    }
  }

  // ---------------------------------------------------------------- soundness of the published schema

  predicate ObjectCapable(s: Schema) {
    s.enum.None? && (s.kind.None? || s.kind == Some(ObjectKind))
  }

  /** Every name that stays required names a property whose values never clean to empty. Decided on the
      schema alone. */
  predicate Faithful(s: Schema)
    decreases s
  {
    && (ObjectCapable(s) ==> forall r | r in Kept(s) :: r in s.properties && !Empties(s.properties[r]))
    && (forall k | k in s.properties :: Faithful(s.properties[k]))
    && (s.items.Some? ==> Faithful(s.items.value))
  }

  /** Enumerated values hold no empty members, as every scalar does. */
  predicate CleanEnums(s: Schema)
    decreases s
  {
    && (s.enum.Some? ==> forall e | e in s.enum.value :: NoEmptyMembers(e))
    && (forall k | k in s.properties :: CleanEnums(s.properties[k]))
    && (s.items.Some? ==> CleanEnums(s.items.value))
  }

  /** A compacted answer satisfies the published schema. */
  lemma {:induction false} CompactionIsSound(s: Schema, v: Json)
    requires Faithful(s) && CleanEnums(s) && Accepts(s, v)
    ensures Accepts(Relax(s), Clean(v))
    decreases s
  {
    if s.enum.Some? {
      CleanFixesExactly(v);
    }
    match v
    case Obj(m) =>
      var c := Clean(v).members;
      forall r | r in Kept(s) ensures r in c {
        assert r in m;
        if s.enum.None? {
          if IsEmpty(Clean(m[r])) {
            EmptiesFromValue(s.properties[r], m[r]);
            assert false;
          }
        }
      }
      forall k | k in c && k in s.properties ensures Accepts(Relax(s.properties[k]), c[k]) {
        CompactionIsSound(s.properties[k], m[k]);
      }
    case Arr(items) =>
      if s.items.Some? {
        forall i | 0 <= i < |items| ensures Accepts(Relax(s.items.value), Clean(items[i])) {
          CompactionIsSound(s.items.value, items[i]);
        }
      }
    case _ =>
  }

  ghost predicate SoundAt(s: Schema) {
    forall v :: Accepts(s, v) ==> Accepts(Relax(s), Clean(v))
  }

  /** The schema and every schema inside it describe their own compacted answers. */
  ghost predicate SoundEverywhere(s: Schema)
    decreases s
  {
    && SoundAt(s)
    && (forall k | k in s.properties :: SoundEverywhere(s.properties[k]))
    && (s.items.Some? ==> SoundEverywhere(s.items.value))
  }

  /** Wherever the schema allows objects by kind, it accepts one. */
  ghost predicate Inhabited(s: Schema)
    decreases s
  {
    && (ObjectCapable(s) ==> exists m :: Accepts(s, Obj(m)))
    && (forall k | k in s.properties :: Inhabited(s.properties[k]))
    && (s.items.Some? ==> Inhabited(s.items.value))
  }

  lemma {:induction false} FaithfulIsSoundEverywhere(s: Schema)
    requires Faithful(s) && CleanEnums(s)
    ensures SoundEverywhere(s)
  {
    forall v | Accepts(s, v) ensures Accepts(Relax(s), Clean(v)) {
      CompactionIsSound(s, v);
    }
    forall k | k in s.properties ensures SoundEverywhere(s.properties[k]) {
      FaithfulIsSoundEverywhere(s.properties[k]);
    }
    if s.items.Some? {
      FaithfulIsSoundEverywhere(s.items.value);
    }
  }

  lemma WithAllowed(s: Schema, m: map<string, Json>, k: string, w: Json)
    requires s.enum.None? && Accepts(s, Obj(m))
    requires if k in s.properties then Accepts(s.properties[k], w) else s.additional
    ensures Accepts(s, Obj(m[k := w]))
  {
    assert MembersFit(s, m[k := w]);
  }

  lemma ReplacedMemberBreaks(s: Schema, m: map<string, Json>, r: string, w: Json)
    requires ObjectCapable(s) && Accepts(s, Obj(m)) && r in m && IsEmpty(Clean(w)) && r in Kept(s)
    requires r in s.properties ==> Accepts(s.properties[r], w)
    ensures !SoundAt(s)
  {
    WithAllowed(s, m, r, w);
    var v := Obj(m[r := w]);
    assert r !in Clean(v).members;
    assert !MembersFit(Relax(s), Clean(v).members);
  }

  lemma KeptNameCannotClean(s: Schema, m: map<string, Json>, r: string)
    requires ObjectCapable(s) && SoundAt(s) && Accepts(s, Obj(m)) && r in Kept(s)
    ensures r in s.properties && !Empties(s.properties[r])
  {
    if r !in s.properties || Empties(s.properties[r]) {
      var w := if r in s.properties then EmptyWitness(s.properties[r]) else Null;
      ReplacedMemberBreaks(s, m, r, w);
      assert false;
    }
  }

  lemma {:induction false} SoundEverywhereIsFaithful(s: Schema)
    requires SoundEverywhere(s) && Inhabited(s)
    ensures Faithful(s)
  {
    if ObjectCapable(s) {
      var m :| Accepts(s, Obj(m));
      forall r | r in Kept(s) ensures r in s.properties && !Empties(s.properties[r]) {
        KeptNameCannotClean(s, m, r);
      }
    }
    forall k | k in s.properties ensures Faithful(s.properties[k]) {
      SoundEverywhereIsFaithful(s.properties[k]);
    }
    if s.items.Some? {
      SoundEverywhereIsFaithful(s.items.value);
    }
  }

  /** Exactly the faithful schemas are described, at every level, by what `describe` publishes for them. */
  lemma SoundExactlyWhenFaithful(s: Schema)
    requires CleanEnums(s) && Inhabited(s)
    ensures SoundEverywhere(s) <==> Faithful(s)
  {
    if Faithful(s) {
      FaithfulIsSoundEverywhere(s);
    }
    if SoundEverywhere(s) {
      SoundEverywhereIsFaithful(s);
    }
  }

  lemma {:induction false} RegularIsFaithful(s: Schema)
    requires Regular(s)
    ensures Faithful(s) && CleanEnums(s)
  {
    forall k | k in s.properties ensures Faithful(s.properties[k]) && CleanEnums(s.properties[k]) {
      RegularIsFaithful(s.properties[k]);
    }
    if s.items.Some? {
      RegularIsFaithful(s.items.value);
    }
    forall r | r in Kept(s) ensures r in s.properties && !Empties(s.properties[r]) {
      assert r in s.required && r !in Droppable(s);
      ReportIsExact(s.properties[r]);
    }
  }

  /** Every compacted answer that is an object has the member `r`. */
  ghost predicate SurvivesAlways(s: Schema, r: string) {
    forall m: map<string, Json> :: Accepts(s, Obj(m)) ==> r in Clean(Obj(m)).members
  }

  /** Relaxation gives up no more than it must: a name stays required in the published schema exactly when
      every compacted answer still has it. */
  lemma PublishedRequiredIsExact(s: Schema, r: string)
    requires Regular(s) && ObjectCapable(s) && Inhabited(s) && r in s.required
    ensures r in Relax(s).required <==> SurvivesAlways(s, r)
  {
    if r in Relax(s).required {
      RegularIsFaithful(s);
      forall m: map<string, Json> | Accepts(s, Obj(m)) ensures r in Clean(Obj(m)).members {
        CompactionIsSound(s, Obj(m));
        assert MembersFit(Relax(s), Clean(Obj(m)).members);
      }
    } else {
      DroppedNameCanBeLost(s, r);
    }
  }

  lemma DroppedNameCanBeLost(s: Schema, r: string)
    requires Regular(s) && ObjectCapable(s) && Inhabited(s) && r in s.required && r in Droppable(s)
    ensures !SurvivesAlways(s, r)
  {
    ReportIsExact(s.properties[r]);
    var m :| Accepts(s, Obj(m));
    var w := EmptyWitness(s.properties[r]);
    WithAllowed(s, m, r, w);
    assert r !in Clean(Obj(m[r := w])).members;
    LostOnce(s, m[r := w], r);
  }

  lemma LostOnce(s: Schema, m: map<string, Json>, r: string)
    requires Accepts(s, Obj(m)) && r !in Clean(Obj(m)).members
    ensures !SurvivesAlways(s, r)
  {
  }

  // ---------------------------------------------------------------- the side conditions are needed

  const ANY := Schema(None, None, map[], [], true, None, None, None, None, None, None, None, None)

  /** A required member the schema does not declare: it stays required, and a null answer loses it. */
  lemma UndeclaredRequiredBreaks()
    ensures var s := ANY.(kind := Some(ObjectKind), required := ["a"]);
            !Faithful(s) && !SoundAt(s)
  {
    var s := ANY.(kind := Some(ObjectKind), required := ["a"]);
    assert "a" in s.required;
    assert "a" !in Droppable(s);
    var m := map["a" := Null];
    assert Accepts(s, Obj(m));
    KeptBreaks(s, m, "a");
  }

  lemma KeptBreaks(s: Schema, m: map<string, Json>, r: string)
    requires Accepts(s, Obj(m)) && r in m && IsEmpty(Clean(m[r])) && r in Kept(s)
    ensures !SoundAt(s)
  {
    assert r !in Clean(Obj(m)).members;
    assert !Accepts(Relax(s), Clean(Obj(m)));
  }

  /** A required member of type null is never reported, though its only value is always dropped. */
  lemma NullMemberBreaks()
    ensures var s := ANY.(kind := Some(ObjectKind), required := ["a"],
                          properties := map["a" := ANY.(kind := Some(NullKind))]);
            !Faithful(s) && !SoundAt(s)
  {
    var s := ANY.(kind := Some(ObjectKind), required := ["a"],
                  properties := map["a" := ANY.(kind := Some(NullKind))]);
    assert "a" in s.required;
    assert "a" !in Droppable(s);
    var m := map["a" := Null];
    assert Accepts(s, Obj(m));
    KeptBreaks(s, m, "a");
  }

  /** `minProperties` is read when relaxing but not enforced on output. */
  lemma MinPropertiesBreaks()
    ensures var s := ANY.(kind := Some(ObjectKind), required := ["a"],
                          properties := map["a" := ANY.(kind := Some(ObjectKind), minProperties := Some(1))]);
            !Faithful(s) && !SoundAt(s)
  {
    var s := ANY.(kind := Some(ObjectKind), required := ["a"],
                  properties := map["a" := ANY.(kind := Some(ObjectKind), minProperties := Some(1))]);
    assert "a" in s.required;
    assert "a" !in Droppable(s);
    var m := map["a" := Obj(map[])];
    assert Accepts(s.properties["a"], Obj(map[]));
    assert Accepts(s, Obj(m));
    KeptBreaks(s, m, "a");
  }
}
