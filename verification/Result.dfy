/** From a provider's answer to the published result: implied members, field selection and compaction
    (internal/application/compact.go, and the end of Invoke in internal/application/application.go). */
module Result {
  import opened Json
  import opened Schema
  import opened Compact
  import opened Described
  import opened Wrappers

  /** A filter argument of the request that fixes the member `field` of every entry of the result list
      `list` once it is set to one of `values`. */
  datatype Implied = Implied(argument: string, values: seq<string>, list: string, field: string)

  predicate Fixes(implied: Implied, arguments: map<string, Json>) {
    implied.argument in arguments && arguments[implied.argument].Str? &&
    arguments[implied.argument].s in implied.values
  }

  /** Each entry that is an object, reduced to the members that satisfy `keep`. */
  function Reduce(entries: seq<Json>, keep: string -> bool): (r: seq<Json>)
    ensures |r| == |entries|
  {
    seq(|entries|, i requires 0 <= i < |entries| => ReduceEntry(entries[i], keep))
  }

  function ReduceEntry(entry: Json, keep: string -> bool): Json {
    if entry.Obj? then Obj(map k | k in entry.members && keep(k) :: entry.members[k]) else entry
  }

  /** The root object with the entries of one of its lists reduced; a list that is none is left alone. */
  function ReduceList(root: map<string, Json>, list: string, keep: string -> bool): map<string, Json> {
    if list in root && root[list].Arr? then root[list := Arr(Reduce(root[list].items, keep))] else root
  }

  function DropMembers(implied: seq<Implied>, arguments: map<string, Json>, root: map<string, Json>)
    : map<string, Json>
  {
    if implied == [] then root
    else DropMembers(implied[1..], arguments,
      if Fixes(implied[0], arguments) then ReduceList(root, implied[0].list, k => k != implied[0].field) else root)
  }

  /** The answer without implied members; arguments that do not decode to an object imply nothing. */
  function WithoutImplied(implied: seq<Implied>, arguments: Option<map<string, Json>>, v: Json): Json {
    if arguments.None? || !v.Obj? then v else Obj(DropMembers(implied, arguments.value, v.members))
  }

  /** `dropImplied`: the members are deleted from the entries one declaration after the other. */
  method DropImplied(implied: seq<Implied>, arguments: Option<map<string, Json>>, value: Json) returns (r: Json)
    ensures r == WithoutImplied(implied, arguments, value)
  {
    if implied == [] || arguments.None? || !value.Obj? {
      return value;
    }
    var root := value.members;
    for n := 0 to |implied|
      invariant DropMembers(implied[n..], arguments.value, root) ==
                DropMembers(implied, arguments.value, value.members)
    {
      var one := implied[n];
      if Fixes(one, arguments.value) && one.list in root && root[one.list].Arr? {
        var before := root[one.list].items;
        var entries := before;
        var keep := (k: string) => k != one.field;
        for i := 0 to |before|
          invariant |entries| == |before|
          invariant forall j | 0 <= j < |before| ::
              entries[j] == if j < i then ReduceEntry(before[j], keep) else before[j]
        {
          if entries[i].Obj? {
            assert entries[i].members - {one.field} == ReduceEntry(before[i], keep).members;
            entries := entries[i := Obj(entries[i].members - {one.field})];
          }
        }
        assert entries == Reduce(before, keep);
        assert root[one.list := Arr(entries)] == ReduceList(root, implied[n].list, k => k != implied[n].field) by {
          assert Reduce(before, keep) == Reduce(before, k => k != implied[n].field) by {
            forall j | 0 <= j < |before|
              ensures ReduceEntry(before[j], keep) == ReduceEntry(before[j], k => k != implied[n].field)
            {
            }
          }
        }
        root := root[one.list := Arr(entries)];
      }
      assert implied[n..][1..] == implied[n + 1..];
    }
    r := Obj(root);
  }

  /** `selectFields`: of the entries of the result list only the selected members stay. */
  function Select(list: Option<string>, fields: Option<set<string>>, v: Json): Json {
    if !v.Obj? || fields.None? || list.None? then v
    else Obj(ReduceList(v.members, list.value, k => k in fields.value))
  }

  // ---------------------------------------------------------------- the steps commute

  lemma ReduceEntryCommutes(entry: Json, keep: string -> bool)
    ensures Clean(ReduceEntry(entry, keep)) == ReduceEntry(Clean(entry), keep)
  {
    if entry.Obj? {
      assert Clean(ReduceEntry(entry, keep)).members == ReduceEntry(Clean(entry), keep).members;
    }
  }

  lemma ReduceListCommutes(root: map<string, Json>, list: string, keep: string -> bool)
    ensures Clean(Obj(ReduceList(root, list, keep))) == Obj(ReduceList(Clean(Obj(root)).members, list, keep))
  {
    var before := Clean(Obj(root)).members;
    if list in root && root[list].Arr? {
      var items := root[list].items;
      var reduced := Arr(Reduce(items, keep));
      forall i | 0 <= i < |items|
        ensures Clean(reduced).items[i] == Reduce(Clean(root[list]).items, keep)[i]
      {
        ReduceEntryCommutes(items[i], keep);
      }
      assert Clean(reduced).items == Reduce(Clean(root[list]).items, keep);
      assert IsEmpty(Clean(reduced)) <==> items == [];
      assert Clean(Obj(ReduceList(root, list, keep))).members == ReduceList(before, list, keep);
    }
  }

  /** Compacting before or after a field selection publishes the same result. */
  lemma SelectCommutes(list: Option<string>, fields: Option<set<string>>, v: Json)
    ensures Clean(Select(list, fields, v)) == Select(list, fields, Clean(v))
  {
    if v.Obj? && fields.Some? && list.Some? {
      ReduceListCommutes(v.members, list.value, k => k in fields.value);
    }
  }

  lemma {:induction false} DropMembersCommutes(implied: seq<Implied>, arguments: map<string, Json>,
                                               root: map<string, Json>)
    ensures Clean(Obj(DropMembers(implied, arguments, root))) ==
            Obj(DropMembers(implied, arguments, Clean(Obj(root)).members))
    decreases |implied|
  {
    if implied != [] {
      var keep := (k: string) => k != implied[0].field;
      var next := if Fixes(implied[0], arguments)
                  then ReduceList(root, implied[0].list, k => k != implied[0].field) else root;
      DropMembersCommutes(implied[1..], arguments, next);
      if Fixes(implied[0], arguments) {
        ReduceListCommutes(root, implied[0].list, k => k != implied[0].field);
      }
    }
  }

  /** Compacting before or after implied members are dropped publishes the same result. */
  lemma DropImpliedCommutes(implied: seq<Implied>, arguments: Option<map<string, Json>>, v: Json)
    ensures Clean(WithoutImplied(implied, arguments, v)) == WithoutImplied(implied, arguments, Clean(v))
  {
    if arguments.Some? && v.Obj? {
      DropMembersCommutes(implied, arguments.value, v.members);
    }
  }

  // ---------------------------------------------------------------- what is dropped

  /** Of an entry exactly the selected members are left, and nothing outside the list is touched. */
  lemma SelectedAreLeft(list: string, fields: set<string>, m: map<string, Json>)
    ensures var r := Select(Some(list), Some(fields), Obj(m));
            && r.Obj? && r.members.Keys == m.Keys && (forall k | k in m && (k != list || !m[k].Arr?) :: r.members[k] == m[k])
            && (list in m && m[list].Arr? ==>
                  && r.members[list].Arr? && |r.members[list].items| == |m[list].items|
                  && forall i | 0 <= i < |m[list].items| :: IsSelection(fields, m[list].items[i], r.members[list].items[i]))
  {
  }

  predicate IsSelection(fields: set<string>, before: Json, after: Json) {
    if before.Obj? then
      IsPart(before, after) && forall f | f in before.members :: f in after.members <==> f in fields
    else after == before
  }

  /** The request fixes a member of the entries of a list: an argument is explicitly one of the declared values. */
  predicate IsFixed(implied: seq<Implied>, arguments: map<string, Json>, list: string, field: string) {
    exists one | one in implied ::
      one.list == list && one.field == field && one.argument in arguments &&
      exists x | x in one.values :: arguments[one.argument] == Str(x)
  }

  /** An entry is an object with some members of what it was, and no other. */
  predicate IsPart(before: Json, after: Json) {
    before.Obj? && after.Obj? && forall f | f in after.members :: f in before.members && after.members[f] == before.members[f]
  }

  lemma FixedByFirst(implied: seq<Implied>, arguments: map<string, Json>, list: string, field: string)
    requires implied != []
    ensures IsFixed(implied, arguments, list, field) <==>
            (Fixes(implied[0], arguments) && implied[0].list == list && implied[0].field == field) ||
            IsFixed(implied[1..], arguments, list, field)
  {
    var first := implied[0];
    assert implied == [first] + implied[1..];
    if Fixes(first, arguments) { assert arguments[first.argument] == Str(arguments[first.argument].s); }
  }

  /** Of an entry exactly the members the request fixes are dropped. */
  lemma {:induction false} FixedAreDropped(implied: seq<Implied>, arguments: map<string, Json>, root: map<string, Json>,
                                           list: string, i: nat)
    requires list in root && root[list].Arr? && i < |root[list].items| && root[list].items[i].Obj?
    ensures var r := DropMembers(implied, arguments, root);
            && list in r && r[list].Arr? && i < |r[list].items| && IsPart(root[list].items[i], r[list].items[i])
            && forall f | f in root[list].items[i].members ::
                 f in r[list].items[i].members <==> !IsFixed(implied, arguments, list, f)
    decreases |implied|
  {
    if implied != [] {
      var next := if Fixes(implied[0], arguments)
                  then ReduceList(root, implied[0].list, k => k != implied[0].field) else root;
      FixedAreDropped(implied[1..], arguments, next, list, i);
      forall f | f in root[list].items[i].members
        ensures f in DropMembers(implied, arguments, root)[list].items[i].members <==> !IsFixed(implied, arguments, list, f)
      {
        FixedByFirst(implied, arguments, list, f);
      }
    }
  }

  // ---------------------------------------------------------------- the published schema

  /** One step of `relaxImplied`: the entries of the list no longer require the implied member. */
  function RelaxOne(s: Schema, implied: Implied): Schema {
    if implied.list in s.properties && s.properties[implied.list].items.Some? then
      var list := s.properties[implied.list];
      var items := list.items.value;
      s.(properties := s.properties[implied.list :=
        list.(items := Some(items.(required := Without(items.required, {implied.field}))))])
    else s
  }

  function RelaxImplied(s: Schema, implied: seq<Implied>): Schema
    decreases |implied|
  {
    if implied == [] then s else RelaxImplied(RelaxOne(s, implied[0]), implied[1..])
  }

  /** A value, and a schema, once more as its numbers are written after they were read as 64-bit floating point. */
  function RespelledValue(spell: Literal -> Literal, v: Json): Json
    decreases v
  {
    match v
    case Num(l) => Num(spell(l))
    case Arr(items) => Arr(seq(|items|, i requires 0 <= i < |items| => RespelledValue(spell, items[i])))
    case Obj(m) => Obj(map k | k in m :: RespelledValue(spell, m[k]))
    case _ => v
  }

  function RespelledValues(spell: Literal -> Literal, values: seq<Json>): seq<Json> {
    seq(|values|, i requires 0 <= i < |values| => RespelledValue(spell, values[i]))
  }

  function RespelledBound(spell: Literal -> Literal, l: Option<Literal>): Option<Literal> {
    if l.Some? then Some(spell(l.value)) else None
  }

  function Respelled(spell: Literal -> Literal, s: Schema): Schema
    decreases s
  {
    s.(enum := if s.enum.Some? then Some(RespelledValues(spell, s.enum.value)) else None,
       minimum := RespelledBound(spell, s.minimum), maximum := RespelledBound(spell, s.maximum),
       properties := map k | k in s.properties :: Respelled(spell, s.properties[k]),
       items := if s.items.Some? then Some(Respelled(spell, s.items.value)) else None)
  }

  /** What `describe` publishes for a tool. With implied members the schema is read and written once more. */
  function Published(spell: Literal -> Literal, s: Schema, implied: seq<Implied>): Schema {
    Relax(if implied == [] then s else Respelled(spell, RelaxImplied(s, implied)))
  }

  /** Written again, every enumerated number is spelled as it was and no bound is narrower. */
  predicate IsSpelled(spell: Literal -> Literal, s: Schema)
    decreases s
  {
    && (s.enum.Some? ==> RespelledValues(spell, s.enum.value) == s.enum.value)
    && (s.minimum.Some? ==> AtMost(Value(spell(s.minimum.value)), Value(s.minimum.value)))
    && (s.maximum.Some? ==> AtMost(Value(s.maximum.value), Value(spell(s.maximum.value))))
    && (forall k | k in s.properties :: IsSpelled(spell, s.properties[k]))
    && (s.items.Some? ==> IsSpelled(spell, s.items.value))
  }

  lemma RelaxOneIsSpelled(spell: Literal -> Literal, s: Schema, implied: Implied)
    requires IsSpelled(spell, s)
    ensures IsSpelled(spell, RelaxOne(s, implied))
  {
    var s' := RelaxOne(s, implied);
    if s' != s {
      var list := s.properties[implied.list];
      assert IsSpelled(spell, list) && IsSpelled(spell, list.items.value);
      assert IsSpelled(spell, s'.properties[implied.list].items.value);
      assert IsSpelled(spell, s'.properties[implied.list]);
    }
  }

  lemma {:induction false} RelaxImpliedIsSpelled(spell: Literal -> Literal, s: Schema, implied: seq<Implied>)
    requires IsSpelled(spell, s)
    ensures IsSpelled(spell, RelaxImplied(s, implied))
    decreases |implied|
  {
    if implied != [] {
      RelaxOneIsSpelled(spell, s, implied[0]);
      RelaxImpliedIsSpelled(spell, RelaxOne(s, implied[0]), implied[1..]);
    }
  }

  ghost predicate Commutes(spell: Literal -> Literal, s: Schema) {
    Relax(Respelled(spell, s)) == Respelled(spell, Relax(s)) && Reports(Respelled(spell, s)) == Reports(s)
  }

  lemma SameReports(s: Schema, r: Schema)
    requires r.kind == s.kind && r.required == s.required && r.minItems == s.minItems && r.minProperties == s.minProperties
    requires r.properties.Keys == s.properties.Keys
    requires forall k | k in s.properties :: Reports(r.properties[k]) == Reports(s.properties[k])
    ensures Kept(r) == Kept(s) && Reports(r) == Reports(s)
  {
    assert Droppable(r) == Droppable(s);
  }

  lemma RespelledParts(spell: Literal -> Literal, s: Schema)
    ensures Respelled(spell, s).properties.Keys == s.properties.Keys
    ensures forall k | k in s.properties :: Respelled(spell, s).properties[k] == Respelled(spell, s.properties[k])
  {
  }

  lemma SameProperties(spell: Literal -> Literal, s: Schema)
    requires forall k | k in s.properties :: Commutes(spell, s.properties[k])
    ensures Relax(Respelled(spell, s)).properties == Respelled(spell, Relax(s)).properties
  {
    var r, t := Respelled(spell, s), Relax(s);
    RespelledParts(spell, s);
    RelaxedParts(s);
    RelaxedParts(r);
    RespelledParts(spell, t);
    forall k | k in s.properties ensures Relax(r).properties[k] == Respelled(spell, t).properties[k] {
      assert Commutes(spell, s.properties[k]);
    }
  }

  lemma RespelledReports(spell: Literal -> Literal, s: Schema)
    requires forall k | k in s.properties :: Commutes(spell, s.properties[k])
    ensures Kept(Respelled(spell, s)) == Kept(s) && Reports(Respelled(spell, s)) == Reports(s)
  {
    RespelledParts(spell, s);
    forall k | k in s.properties ensures Reports(Respelled(spell, s).properties[k]) == Reports(s.properties[k]) {
      assert Commutes(spell, s.properties[k]);
    }
    SameReports(s, Respelled(spell, s));
  }

  /** Whether a schema is written again before or after it is relaxed makes no difference. */
  lemma {:induction false} RespelledRelaxes(spell: Literal -> Literal, s: Schema)
    ensures Commutes(spell, s)
    decreases s
  {
    forall k | k in s.properties ensures Commutes(spell, s.properties[k]) { RespelledRelaxes(spell, s.properties[k]); }
    if s.items.Some? { RespelledRelaxes(spell, s.items.value); }
    RespelledReports(spell, s);
    SameProperties(spell, s);
  }

  lemma {:induction false} RelaxIsSpelled(spell: Literal -> Literal, s: Schema)
    requires IsSpelled(spell, s)
    ensures IsSpelled(spell, Relax(s))
    decreases s
  {
    forall k | k in s.properties ensures IsSpelled(spell, Relax(s.properties[k])) { RelaxIsSpelled(spell, s.properties[k]); }
    if s.items.Some? { RelaxIsSpelled(spell, s.items.value); }
  }

  /** What a schema accepts it accepts written again. */
  lemma {:induction false} RespelledAccepts(spell: Literal -> Literal, s: Schema, v: Json)
    requires IsSpelled(spell, s) && Accepts(s, v)
    ensures Accepts(Respelled(spell, s), v)
    decreases s
  {
    if v.Obj? {
      forall k | k in v.members && k in s.properties ensures Accepts(Respelled(spell, s.properties[k]), v.members[k]) {
        RespelledAccepts(spell, s.properties[k], v.members[k]);
      }
    } else if v.Arr? && s.items.Some? {
      forall i | 0 <= i < |v.items| ensures Accepts(Respelled(spell, s.items.value), v.items[i]) {
        RespelledAccepts(spell, s.items.value, v.items[i]);
      }
    } else if v.Num? {
      if s.minimum.Some? { AtMostIsTransitive(Value(spell(s.minimum.value)), Value(s.minimum.value), Value(v.lit)); }
      if s.maximum.Some? { AtMostIsTransitive(Value(v.lit), Value(s.maximum.value), Value(spell(s.maximum.value))); }
    }
  }

  /** The entries of every list an implied member is declared for have that member. */
  predicate HasImplied(implied: seq<Implied>, m: map<string, Json>) {
    forall one | one in implied && one.list in m && m[one.list].Arr? ::
      forall entry | entry in m[one.list].items && entry.Obj? :: one.field in entry.members
  }

  lemma RelaxedListForbids(list: Schema, field: string, v: Json)
    requires list.items.Some? && (v.Arr? ==> forall entry | entry in v.items && entry.Obj? :: field in entry.members)
    requires var items := list.items.value;
             Accepts(list.(items := Some(items.(required := Without(items.required, {field})))), v)
    ensures Accepts(list, v)
  {
    var items := list.items.value;
    if v.Arr? {
      forall i | 0 <= i < |v.items| ensures Accepts(items, v.items[i]) {
        assert v.items[i] in v.items;
        assert Accepts(items.(required := Without(items.required, {field})), v.items[i]);
      }
    }
  }

  lemma RelaxOneForbidsTheRest(s: Schema, one: Implied, m: map<string, Json>)
    requires Accepts(RelaxOne(s, one), Obj(m)) && HasImplied([one], m)
    ensures Accepts(s, Obj(m))
  {
    var s' := RelaxOne(s, one);
    assert one in [one];
    forall k | k in m && k in s.properties ensures Accepts(s.properties[k], m[k]) {
      assert Accepts(s'.properties[k], m[k]);
      if k == one.list && s.properties[k].items.Some? { RelaxedListForbids(s.properties[k], one.field, m[k]); }
    }
    assert MembersFit(s', m);
  }

  /** A schema that no longer requires implied members forbids everything else it forbade. */
  lemma {:induction false} RelaxImpliedForbidsTheRest(s: Schema, implied: seq<Implied>, m: map<string, Json>)
    requires Accepts(RelaxImplied(s, implied), Obj(m)) && HasImplied(implied, m)
    ensures Accepts(s, Obj(m))
    decreases |implied|
  {
    if implied != [] {
      assert implied == [implied[0]] + implied[1..];
      RelaxImpliedForbidsTheRest(RelaxOne(s, implied[0]), implied[1..], m);
      RelaxOneForbidsTheRest(s, implied[0], m);
    }
  }

  /** What `Invoke` returns for an answer that passed the tool's output schema, without a field selection. */
  function Compacted(implied: seq<Implied>, arguments: Option<map<string, Json>>, v: Json): Json {
    Clean(WithoutImplied(implied, arguments, v))
  }

  predicate ScalarEnums(s: Schema)
    decreases s
  {
    && (s.enum.Some? ==> forall e | e in s.enum.value :: !e.Arr? && !e.Obj?)
    && (forall k | k in s.properties :: ScalarEnums(s.properties[k]))
    && (s.items.Some? ==> ScalarEnums(s.items.value))
  }

  lemma {:induction false} ScalarEnumsAreClean(s: Schema)
    requires ScalarEnums(s)
    ensures CleanEnums(s)
  {
    forall k | k in s.properties ensures CleanEnums(s.properties[k]) {
      ScalarEnumsAreClean(s.properties[k]);
    }
    if s.items.Some? {
      ScalarEnumsAreClean(s.items.value);
    }
  }

  lemma FewerRequired(items: Schema, field: string, entry: Json)
    requires Accepts(items, entry)
    ensures Accepts(items.(required := Without(items.required, {field})), entry)
  {
  }

  lemma ReducedEntryAccepted(items: Schema, field: string, entry: Json)
    requires Accepts(items, entry) && ScalarEnums(items)
    ensures Accepts(items.(required := Without(items.required, {field})), ReduceEntry(entry, k => k != field))
  {
    FewerRequired(items, field, entry);
    if entry.Obj? {
      var m := ReduceEntry(entry, k => k != field).members;
      assert forall k | k in m :: m[k] == entry.members[k];
    }
  }

  /** The list's schema after one step accepts the list before and after its entries were reduced. */
  lemma RelaxedListAccepts(list: Schema, field: string, v: Json)
    requires Accepts(list, v) && ScalarEnums(list) && list.items.Some?
    ensures var items := list.items.value;
            var list' := list.(items := Some(items.(required := Without(items.required, {field}))));
            Accepts(list', v) && (v.Arr? ==> Accepts(list', Arr(Reduce(v.items, k => k != field))))
  {
    var items := list.items.value;
    if v.Arr? {
      forall i | 0 <= i < |v.items|
        ensures Accepts(items.(required := Without(items.required, {field})), v.items[i])
        ensures Accepts(items.(required := Without(items.required, {field})),
                        Reduce(v.items, k => k != field)[i])
      {
        FewerRequired(items, field, v.items[i]);
        ReducedEntryAccepted(items, field, v.items[i]);
      }
    }
  }

  lemma UnitemizedListAccepts(list: Schema, field: string, v: Json)
    requires Accepts(list, v) && ScalarEnums(list) && list.items.None? && v.Arr?
    ensures Accepts(list, Arr(Reduce(v.items, k => k != field)))
  {
  }

  /** One step keeps an accepted answer accepted, whether or not the request fixed the member. */
  lemma RelaxOneAccepts(s: Schema, implied: Implied, m: map<string, Json>)
    requires Accepts(s, Obj(m)) && ScalarEnums(s)
    ensures Accepts(RelaxOne(s, implied), Obj(m))
    ensures Accepts(RelaxOne(s, implied), Obj(ReduceList(m, implied.list, k => k != implied.field)))
  {
    var s' := RelaxOne(s, implied);
    var m' := ReduceList(m, implied.list, k => k != implied.field);
    forall k | k in m && k in s'.properties
      ensures Accepts(s'.properties[k], m[k]) && Accepts(s'.properties[k], m'[k])
    {
      RelaxOneAcceptsMember(s, implied, m, k);
    }
    assert MembersFit(s', m) && MembersFit(s', m');
  }

  lemma RelaxOneAcceptsMember(s: Schema, implied: Implied, m: map<string, Json>, k: string)
    requires Accepts(s, Obj(m)) && ScalarEnums(s) && k in m && k in s.properties
    ensures Accepts(RelaxOne(s, implied).properties[k], m[k])
    ensures Accepts(RelaxOne(s, implied).properties[k], ReduceList(m, implied.list, f => f != implied.field)[k])
  {
    if k == implied.list {
      if s.properties[k].items.Some? {
        RelaxedListAccepts(s.properties[k], implied.field, m[k]);
      } else if m[k].Arr? {
        UnitemizedListAccepts(s.properties[k], implied.field, m[k]);
      }
    }
  }

  lemma ScalarAcceptsSame(list: Schema, list': Schema, e: Json)
    requires list' == list.(items := list'.items) && !e.Arr? && !e.Obj?
    ensures Accepts(list, e) == Accepts(list', e)
  {
  }

  /** A list whose items changed reports and empties as before. */
  lemma ItemsDoNotEmpty(list: Schema, list': Schema)
    requires list' == list.(items := list'.items) && ScalarEnums(list)
    ensures Reports(list') == Reports(list) && Empties(list') == Empties(list)
  {
    assert Droppable(list') == Droppable(list);
    if list.enum.Some? {
      forall e | e in list.enum.value ensures Accepts(list, e) == Accepts(list', e) {
        ScalarAcceptsSame(list, list', e);
      }
    }
  }

  lemma FewerRequiredKeep(items: Schema, field: string)
    requires Faithful(items)
    ensures Faithful(items.(required := Without(items.required, {field})))
  {
    var fewer := items.(required := Without(items.required, {field}));
    assert Droppable(fewer) == Droppable(items);
    assert forall r | r in Kept(fewer) :: r in Kept(items);
  }

  /** With other items a list is as faithful as these. */
  lemma ListKeeps(list: Schema, list': Schema)
    requires list' == list.(items := list'.items) && Faithful(list)
    requires list'.items.Some? && Faithful(list'.items.value)
    ensures Faithful(list')
  {
    assert Droppable(list') == Droppable(list);
  }

  lemma SameKept(s: Schema, s': Schema)
    requires s' == s.(properties := s'.properties) && s'.properties.Keys == s.properties.Keys
    requires forall k | k in s.properties :: Reports(s'.properties[k]) == Reports(s.properties[k])
    ensures Kept(s') == Kept(s)
  {
    assert Droppable(s') == Droppable(s);
  }

  lemma PropertyKeeps(s: Schema, s': Schema)
    requires s' == s.(properties := s'.properties) && s'.properties.Keys == s.properties.Keys && Faithful(s)
    requires Kept(s') == Kept(s) && forall k | k in s.properties :: Faithful(s'.properties[k])
    requires forall k | k in s.properties :: Empties(s'.properties[k]) == Empties(s.properties[k])
    ensures Faithful(s')
  {
    forall r | ObjectCapable(s') && r in Kept(s') ensures r in s'.properties && !Empties(s'.properties[r]) {
      assert ObjectCapable(s) && r in Kept(s);
    }
  }

  lemma RelaxOneIsScalar(s: Schema, implied: Implied)
    requires ScalarEnums(s)
    ensures ScalarEnums(RelaxOne(s, implied))
  {
    var s' := RelaxOne(s, implied);
    if s' != s {
      var list, list' := s.properties[implied.list], s'.properties[implied.list];
      assert ScalarEnums(list) && ScalarEnums(list.items.value);
      assert ScalarEnums(list'.items.value);
      assert ScalarEnums(list');
    }
  }

  lemma RelaxOneKeeps(s: Schema, implied: Implied)
    requires Faithful(s) && ScalarEnums(s)
    ensures Faithful(RelaxOne(s, implied))
  {
    var s' := RelaxOne(s, implied);
    if s' != s {
      var list, list' := s.properties[implied.list], s'.properties[implied.list];
      assert Faithful(list) && ScalarEnums(list);
      FewerRequiredKeep(list.items.value, implied.field);
      ListKeeps(list, list');
      ItemsDoNotEmpty(list, list');
      SameKept(s, s');
      PropertyKeeps(s, s');
    }
  }

  lemma {:induction false} RelaxImpliedKeeps(s: Schema, implied: seq<Implied>)
    requires ScalarEnums(s)
    ensures ScalarEnums(RelaxImplied(s, implied)) && (Faithful(s) ==> Faithful(RelaxImplied(s, implied)))
    decreases |implied|
  {
    if implied != [] {
      RelaxOneIsScalar(s, implied[0]);
      if Faithful(s) { RelaxOneKeeps(s, implied[0]); }
      RelaxImpliedKeeps(RelaxOne(s, implied[0]), implied[1..]);
    }
  }

  /** Without its implied members an accepted answer is accepted by the schema that no longer requires them. */
  lemma {:induction false} ImpliedIsSound(s: Schema, implied: seq<Implied>, arguments: map<string, Json>,
                                          m: map<string, Json>)
    requires Accepts(s, Obj(m)) && ScalarEnums(s)
    ensures Accepts(RelaxImplied(s, implied), Obj(m))
    ensures Accepts(RelaxImplied(s, implied), Obj(DropMembers(implied, arguments, m)))
    decreases |implied|
  {
    if implied != [] {
      RelaxOneAccepts(s, implied[0], m);
      RelaxOneIsScalar(s, implied[0]);
      var next := if Fixes(implied[0], arguments)
                  then ReduceList(m, implied[0].list, k => k != implied[0].field) else m;
      ImpliedIsSound(RelaxOne(s, implied[0]), implied[1..], arguments, m);
      ImpliedIsSound(RelaxOne(s, implied[0]), implied[1..], arguments, next);
    }
  }

  lemma {:induction false} RelaxImpliedOther(s: Schema, implied: seq<Implied>, v: Json)
    requires Accepts(s, v) && !v.Obj?
    ensures Accepts(RelaxImplied(s, implied), v)
    decreases |implied|
  {
    if implied != [] { RelaxImpliedOther(RelaxOne(s, implied[0]), implied[1..], v); }
  }

  /** The contract of a tool call: whatever answer passes the full output schema, what is returned passes the
      published one, for any arguments and any implied fields, where the schema without the implied members
      describes its compacted answers and, if it is written again, keeps its numbers. */
  lemma ResultSatisfiesPublished(spell: Literal -> Literal, s: Schema, implied: seq<Implied>,
                                 arguments: Option<map<string, Json>>, v: Json)
    requires ScalarEnums(s) && Describes(RelaxImplied(s, implied), true)
    requires implied != [] ==> IsSpelled(spell, s)
    requires Accepts(s, v)
    ensures Accepts(Published(spell, s, implied), Compacted(implied, arguments, v))
  {
    if v.Obj? {
      ImpliedIsSound(s, implied, if arguments.Some? then arguments.value else map[], v.members);
    } else {
      RelaxImpliedOther(s, implied, v);
    }
    var plain := RelaxImplied(s, implied);
    DescribedIsSound(plain, WithoutImplied(implied, arguments, v), true);
    if implied != [] {
      RelaxImpliedIsSpelled(spell, s, implied);
      RelaxIsSpelled(spell, plain);
      RespelledRelaxes(spell, plain);
      RespelledAccepts(spell, Relax(plain), Compacted(implied, arguments, v));
    }
  }

  /** A number spelled otherwise is no longer the one enumerated: the answer 1.0 to `enum: [1.0]`, where a tool
      declares implied members and the schema is published with `enum: [1]`. */
  lemma SpellingCanBreak(spell: Literal -> Literal, l: Literal, implied: seq<Implied>)
    requires implied != [] && spell(l) != l
    ensures var s := ANY.(enum := Some([Num(l)]));
            ScalarEnums(s) && Faithful(s) && Accepts(s, Num(l)) &&
            !Accepts(Published(spell, s, implied), Compacted(implied, None, Num(l)))
  {
    var s := ANY.(enum := Some([Num(l)]));
    NothingToRelax(s, implied);
    assert RespelledValues(spell, [Num(l)]) == [RespelledValue(spell, Num(l))];
    assert Published(spell, s, implied).enum == Some([Num(spell(l))]);
  }

  lemma {:induction false} NothingToRelax(s: Schema, implied: seq<Implied>)
    requires s.properties == map[]
    ensures RelaxImplied(s, implied) == s
    decreases |implied|
  {
    if implied != [] { NothingToRelax(s, implied[1..]); }
  }

  /** A faithful schema with scalar enums is one, whatever members are implied. */
  lemma FaithfulIsEnough(s: Schema, implied: seq<Implied>)
    requires Faithful(s) && ScalarEnums(s)
    ensures Describes(RelaxImplied(s, implied), true)
  {
    RelaxImpliedKeeps(s, implied);
    ScalarEnumsAreClean(RelaxImplied(s, implied));
    FaithfulIsDescribed(RelaxImplied(s, implied));
  }

  lemma {:induction false} DropMembersKeepsLists(implied: seq<Implied>, arguments: map<string, Json>,
                                                 root: map<string, Json>)
    ensures var r := DropMembers(implied, arguments, root);
            r.Keys == root.Keys &&
            forall k | k in root :: if root[k].Arr? then r[k].Arr? && |r[k].items| == |root[k].items| else r[k] == root[k]
    decreases |implied|
  {
    if implied != [] {
      var next := if Fixes(implied[0], arguments)
                  then ReduceList(root, implied[0].list, k => k != implied[0].field) else root;
      DropMembersKeepsLists(implied[1..], arguments, next);
    }
  }

  /** The shape clients rely on: an object stays an object, an array keeps its length, and a list of the root
      is missing exactly when it was empty. */
  lemma ResultShape(implied: seq<Implied>, arguments: Option<map<string, Json>>, v: Json)
    ensures var r := Compacted(implied, arguments, v);
            (r.Obj? <==> v.Obj?) && (r.Arr? <==> v.Arr?) && (v.Arr? ==> |r.items| == |v.items|) &&
            (v.Obj? ==> forall k | k in v.members && v.members[k].Arr? ::
               (k in r.members <==> v.members[k].items != []) &&
               (k in r.members ==> r.members[k].Arr? && |r.members[k].items| == |v.members[k].items|))
  {
    if v.Obj? && arguments.Some? {
      DropMembersKeepsLists(implied, arguments.value, v.members);
    }
    if v.Obj? {
      var m := WithoutImplied(implied, arguments, v).members;
      forall k | k in v.members && v.members[k].Arr?
        ensures k in m && m[k].Arr? && |Clean(m[k]).items| == |v.members[k].items|
        ensures IsEmpty(Clean(m[k])) <==> v.members[k].items == []
      {
      }
    }
  }
}
