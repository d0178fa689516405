/** Exactly which schemas describe their own compacted answers, decided on the schema alone
    (PublishedOutputSchema and dropEmpty in internal/application/compact.go). */
module Described {
  import opened Json
  import opened Numerals
  import opened Schema
  import opened Compact
  import opened Wrappers

  // ---------------------------------------------------------------- integers

  /** The least integer that is not below a fraction. */
  function Ceiling(f: Fraction): int
    requires f.den > 0
  {
    -(-f.num / f.den)
  }

  lemma CeilingExactly(f: Fraction, n: int)
    requires f.den > 0
    ensures AtMost(f, Fraction(n, 1)) <==> Ceiling(f) <= n
  {
    var q, r := -f.num / f.den, -f.num % f.den;
    assert -f.num == q * f.den + r;
    if -q <= n { Multiplied(-n, q, f.den); } else { Multiplied(q + 1, -n, f.den); }
  }

  lemma Multiplied(a: int, b: int, d: int)
    requires a <= b && d > 0
    ensures a * d <= b * d
  {
  }

  function DigitsOf(n: nat): (ds: seq<Digit>)
    ensures ds != [] && DigitsValue(ds) == n
  {
    if n < 10 then
      assert [n as Digit][..0] == [];
      [n as Digit]
    else
      var front: seq<Digit> := DigitsOf(n / 10);
      var last: Digit := n % 10;
      assert (front + [last])[..|front|] == front;
      front + [last]
  }

  function IntegerLiteral(n: int): (l: Literal)
    requires -0x8000_0000_0000_0000 <= n < 0x8000_0000_0000_0000
    ensures IsInt64(l) && Value(l) == Fraction(n, 1)
  {
    var ds := DigitsOf(if n < 0 then -n else n);
    assert ds + [] == ds && Pow10(0) == 1;
    Literal(n < 0, ds, [], NoExponent)
  }

  lemma IntegerValue(l: Literal)
    requires IsInt64(l)
    ensures Value(l).den == 1 && -0x8000_0000_0000_0000 <= Value(l).num < 0x8000_0000_0000_0000
  {
    assert l.whole + [] == l.whole && Pow10(0) == 1;
  }

  // ---------------------------------------------------------------- what a schema can accept

  predicate NumberAllowed(s: Schema) {
    s.minimum.Some? && s.maximum.Some? ==> AtMost(Value(s.minimum.value), Value(s.maximum.value))
  }

  /** The least integer of 64 bits that is not below the minimum. */
  function LeastInteger(s: Schema): int {
    var least := -0x8000_0000_0000_0000;
    if s.minimum.Some? && Ceiling(Value(s.minimum.value)) > least then Ceiling(Value(s.minimum.value)) else least
  }

  predicate IntegerAllowed(s: Schema) {
    LeastInteger(s) < 0x8000_0000_0000_0000 &&
    (s.maximum.Some? ==> AtMost(Fraction(LeastInteger(s), 1), Value(s.maximum.value)))
  }

  predicate LengthAllowed(s: Schema) {
    s.maxLength.Some? ==> s.maxLength.value >= 0 && (s.minLength.Some? ==> s.minLength.value <= s.maxLength.value)
  }

  /** Some number of entries that is not zero is allowed. */
  predicate EntriesAllowed(s: Schema) {
    s.maxItems.Some? ==> s.maxItems.value >= 1 && (s.minItems.Some? ==> s.minItems.value <= s.maxItems.value)
  }

  predicate AllowsEntries(s: Schema) { (s.kind.None? || s.kind == Some(ArrayKind)) && EntriesAllowed(s) }

  /** A scalar of the kind is accepted. */
  predicate ScalarAllowed(s: Schema) {
    match s.kind
    case None => true
    case Some(BooleanKind) => true
    case Some(StringKind) => LengthAllowed(s)
    case Some(NumberKind) => NumberAllowed(s)
    case Some(IntegerKind) => IntegerAllowed(s)
    case _ => false
  }

  /** Every required member can be accepted. */
  predicate MembersAllowed(s: Schema)
    decreases s, 0
  {
    forall r | r in s.required :: if r in s.properties then Satisfiable(s.properties[r]) else s.additional
  }

  /** Some value is accepted; see SatisfiableExactly. */
  predicate Satisfiable(s: Schema)
    decreases s, 1
  {
    if s.enum.Some? then exists e | e in s.enum.value :: Accepts(s, e)
    else match s.kind
      case Some(NullKind) => true
      case Some(ArrayKind) =>
        WithinInt(s.minItems, 0, s.maxItems) || (EntriesAllowed(s) && (s.items.Some? ==> Satisfiable(s.items.value)))
      case Some(ObjectKind) => MembersAllowed(s)
      case _ => ScalarAllowed(s)
  }

  /** Some object is accepted. */
  predicate AllowsObjects(s: Schema) { (s.kind.None? || s.kind == Some(ObjectKind)) && MembersAllowed(s) }

  function ExampleScalar(s: Schema): (v: Json)
    requires s.enum.None? && ScalarAllowed(s)
    ensures Accepts(s, v) && !IsEmpty(Clean(v))
  {
    if s.kind == Some(StringKind) then Str(Repeated(if s.minLength.Some? && s.minLength.value > 0 then s.minLength.value else 0))
    else if s.kind == Some(NumberKind) then Num(ExampleNumber(s))
    else if s.kind == Some(IntegerKind) then LeastIsAccepted(s); Num(IntegerLiteral(LeastInteger(s)))
    else Bool(true)
  }

  function Repeated(n: nat): (r: string)
    ensures |r| == n
  {
    seq(n, i => 'x')
  }

  function ExampleNumber(s: Schema): (l: Literal)
    requires NumberAllowed(s)
    ensures s.minimum.Some? ==> AtMost(Value(s.minimum.value), Value(l))
    ensures s.maximum.Some? ==> AtMost(Value(l), Value(s.maximum.value))
  {
    if s.minimum.Some? then s.minimum.value else if s.maximum.Some? then s.maximum.value else IntegerLiteral(0)
  }

  lemma LeastIsAccepted(s: Schema)
    requires IntegerAllowed(s)
    ensures s.minimum.Some? ==> AtMost(Value(s.minimum.value), Fraction(LeastInteger(s), 1))
  {
    if s.minimum.Some? { CeilingExactly(Value(s.minimum.value), LeastInteger(s)); }
  }

  /** Entries of which an array may consist. */
  function Entries(s: Schema, entry: Json): (v: Json)
    requires s.enum.None? && AllowsEntries(s) && (s.items.Some? ==> Accepts(s.items.value, entry))
    ensures Accepts(s, v) && v.Arr? && v.items != [] && forall i | 0 <= i < |v.items| :: v.items[i] == entry
  {
    Arr(seq(if s.minItems.Some? && s.minItems.value > 1 then s.minItems.value else 1, i => entry))
  }

  function ExampleMembers(s: Schema): (m: map<string, Json>)
    requires s.enum.None? && AllowsObjects(s)
    ensures Accepts(s, Obj(m))
    decreases s, 0
  {
    map r | r in s.required :: if r in s.properties then Example(s.properties[r]) else Null
  }

  function Example(s: Schema): (v: Json)
    requires Satisfiable(s)
    ensures Accepts(s, v)
    decreases s, 1
  {
    if s.enum.Some? then FirstAccepted(s, s.enum.value)
    else if s.kind == Some(NullKind) then Null
    else if s.kind == Some(ArrayKind) && WithinInt(s.minItems, 0, s.maxItems) then Arr([])
    else if s.kind == Some(ArrayKind) then Entries(s, if s.items.Some? then Example(s.items.value) else Null)
    else if s.kind == Some(ObjectKind) then Obj(ExampleMembers(s))
    else ExampleScalar(s)
  }

  function FirstAccepted(s: Schema, values: seq<Json>): (v: Json)
    requires exists e | e in values :: Accepts(s, e)
    ensures v in values && Accepts(s, v)
  {
    if Accepts(s, values[0]) then values[0] else FirstAccepted(s, values[1..])
  }

  lemma NumberIsAllowed(s: Schema, l: Literal)
    requires s.minimum.Some? ==> AtMost(Value(s.minimum.value), Value(l))
    requires s.maximum.Some? ==> AtMost(Value(l), Value(s.maximum.value))
    ensures NumberAllowed(s) && (IsInt64(l) ==> IntegerAllowed(s))
  {
    if s.minimum.Some? && s.maximum.Some? { AtMostIsTransitive(Value(s.minimum.value), Value(l), Value(s.maximum.value)); }
    if IsInt64(l) {
      IntegerValue(l);
      var n := Value(l).num;
      if s.minimum.Some? { CeilingExactly(Value(s.minimum.value), n); }
      assert LeastInteger(s) <= n;
      if s.maximum.Some? { AtMostIsTransitive(Fraction(LeastInteger(s), 1), Fraction(n, 1), Value(s.maximum.value)); }
    }
  }

  lemma AtMostIsTransitive(p: Fraction, q: Fraction, r: Fraction)
    requires p.den > 0 && q.den > 0 && r.den > 0 && AtMost(p, q) && AtMost(q, r)
    ensures AtMost(p, r)
  {
    Multiplied(p.num * q.den, q.num * p.den, r.den);
    Multiplied(q.num * r.den, r.num * q.den, p.den);
    Regroup(p.num, q.den, r.den);
    Regroup(q.num, p.den, r.den);
    Regroup(r.num, q.den, p.den);
    Divided(p.num * r.den, r.num * p.den, q.den);
  }

  lemma Regroup(a: int, b: int, c: int)
    ensures a * b * c == a * c * b
  {
  }

  lemma Divided(a: int, b: int, d: int)
    requires d > 0 && a * d <= b * d
    ensures a <= b
  {
    if b < a { Multiplied(b + 1, a, d); }
  }

  lemma {:induction false} AcceptedIsSatisfiable(s: Schema, v: Json)
    requires Accepts(s, v)
    ensures Satisfiable(s)
    ensures v.Obj? && s.enum.None? ==> AllowsObjects(s)
    decreases s
  {
    if s.enum.None? {
      match v
      case Obj(m) =>
        forall r | r in s.required ensures if r in s.properties then Satisfiable(s.properties[r]) else s.additional {
          if r in s.properties { AcceptedIsSatisfiable(s.properties[r], m[r]); }
        }
      case Arr(items) =>
        if items != [] && s.items.Some? { AcceptedIsSatisfiable(s.items.value, items[0]); }
      case Num(l) => NumberIsAllowed(s, l);
      case _ =>
    }
  }

  /** `Satisfiable` says exactly whether some value is accepted. */
  lemma SatisfiableExactly(s: Schema)
    ensures Satisfiable(s) <==> exists v :: Accepts(s, v)
  {
    if Satisfiable(s) { assert Accepts(s, Example(s)); }
    if v :| Accepts(s, v) { AcceptedIsSatisfiable(s, v); }
  }

  // ---------------------------------------------------------------- what can stay a member

  /** Some accepted value does not clean to an empty one, so it stays a member of its object; see StaysExactly. */
  predicate Stays(s: Schema)
    decreases s
  {
    if s.enum.Some? then exists e | e in s.enum.value :: Accepts(s, e) && !IsEmpty(Clean(e))
    else match s.kind
      case Some(ArrayKind) => EntriesAllowed(s) && (s.items.Some? ==> Satisfiable(s.items.value))
      case Some(ObjectKind) =>
        MembersAllowed(s) && (s.additional || exists k | k in s.properties :: Stays(s.properties[k]))
      case _ => ScalarAllowed(s)
  }

  lemma LongerThanAll(names: set<string>) returns (name: string)
    ensures forall n | n in names :: |n| < |name|
    decreases |names|
  {
    if names == {} {
      name := "";
    } else {
      var n :| n in names;
      var longer := LongerThanAll(names - {n});
      name := Repeated(|longer| + |n| + 1);
    }
  }

  lemma StaysFromValue(s: Schema, v: Json)
    requires Accepts(s, v) && !IsEmpty(Clean(v))
    ensures Stays(s)
    decreases s
  {
    AcceptedIsSatisfiable(s, v);
    if s.enum.None? {
      match v
      case Obj(m) =>
        var k :| k in Clean(v).members;
        if k in s.properties { StaysFromValue(s.properties[k], m[k]); }
      case Arr(items) =>
        if s.items.Some? { AcceptedIsSatisfiable(s.items.value, items[0]); }
      case _ =>
    }
  }

  /** An accepted value that stays. */
  lemma {:induction false} StayingExample(s: Schema) returns (v: Json)
    requires Stays(s)
    ensures Accepts(s, v) && !IsEmpty(Clean(v))
    decreases s
  {
    if s.enum.Some? {
      v :| v in s.enum.value && Accepts(s, v) && !IsEmpty(Clean(v));
    } else if s.kind == Some(ArrayKind) {
      v := Entries(s, if s.items.Some? then Example(s.items.value) else Null);
    } else if s.kind == Some(ObjectKind) {
      var m, k, w := ExampleMembers(s), "", Null;
      if s.additional {
        k := LongerThanAll(s.properties.Keys);
        w := Bool(true);
      } else {
        k :| k in s.properties && Stays(s.properties[k]);
        w := StayingExample(s.properties[k]);
      }
      v := WithStaying(s, m, k, w);
    } else {
      v := ExampleScalar(s);
    }
  }

  lemma WithStaying(s: Schema, m: map<string, Json>, k: string, w: Json) returns (v: Json)
    requires s.enum.None? && Accepts(s, Obj(m)) && !IsEmpty(Clean(w))
    requires if k in s.properties then Accepts(s.properties[k], w) else s.additional
    ensures v == Obj(m[k := w]) && Accepts(s, v) && k in Clean(v).members && !IsEmpty(Clean(v))
  {
    WithAllowed(s, m, k, w);
    v := Obj(m[k := w]);
    assert k in Clean(v).members;
  }

  /** `Stays` says exactly whether some accepted value does not clean to an empty one. */
  lemma StaysExactly(s: Schema)
    ensures Stays(s) <==> exists v :: Accepts(s, v) && !IsEmpty(Clean(v))
  {
    if Stays(s) {
      var v := StayingExample(s);
      assert Accepts(s, v) && !IsEmpty(Clean(v));
    }
    if v :| Accepts(s, v) && !IsEmpty(Clean(v)) { StaysFromValue(s, v); }
  }

  // ---------------------------------------------------------------- the published schema, exactly

  /** A member of another name can stay in the object; where others are allowed, there is always a name left. */
  predicate OthersStay(s: Schema, r: string) {
    s.additional || exists k | k in s.properties :: k != r && Stays(s.properties[k])
  }

  /** A name that stays required is never lost, or only together with the whole object, where that is dropped. */
  predicate NameIsSafe(s: Schema, r: string, root: bool) {
    (r in s.properties && !Empties(s.properties[r])) || (!root && !OthersStay(s, r))
  }

  /** What is published describes the compacted answers: all of them at the root and in arrays, and those that are
      not empty where empty ones are dropped. A condition on the schema alone; no other is needed. */
  predicate Describes(s: Schema, root: bool)
    decreases s
  {
    if s.enum.Some? then
      forall e | e in s.enum.value && Accepts(s, e) && (root || !IsEmpty(Clean(e))) :: Accepts(Relax(s), Clean(e))
    else
      && (AllowsObjects(s) ==> forall r | r in Kept(s) :: NameIsSafe(s, r, root))
      && (AllowsObjects(s) ==> forall k | k in s.properties :: Describes(s.properties[k], false))
      && (s.items.Some? && AllowsEntries(s) ==> Describes(s.items.value, true))
  }

  lemma KeptIsThere(s: Schema, m: map<string, Json>, r: string, root: bool)
    requires s.enum.None? && Accepts(s, Obj(m)) && r in Kept(s) && NameIsSafe(s, r, root)
    requires root || Clean(Obj(m)).members != map[]
    ensures r in Clean(Obj(m)).members
  {
    var c := Clean(Obj(m)).members;
    assert r in s.required && r in m;
    if r in s.properties && IsEmpty(Clean(m[r])) {
      EmptiesFromValue(s.properties[r], m[r]);
    }
    if !root && !OthersStay(s, r) {
      var k :| k in c;
      if k in s.properties { StaysFromValue(s.properties[k], m[k]); }
    }
  }

  lemma DescribedObject(s: Schema, m: map<string, Json>, root: bool)
    requires s.enum.None? && Accepts(s, Obj(m)) && (root || Clean(Obj(m)).members != map[])
    requires forall r | r in Kept(s) :: NameIsSafe(s, r, root)
    requires forall k | k in Clean(Obj(m)).members && k in s.properties :: Accepts(Relax(s.properties[k]), Clean(m[k]))
    ensures Accepts(Relax(s), Clean(Obj(m)))
  {
    forall r | r in Kept(s) ensures r in Clean(Obj(m)).members { KeptIsThere(s, m, r, root); }
    assert MembersFit(Relax(s), Clean(Obj(m)).members);
  }

  lemma {:induction false} DescribedIsSound(s: Schema, v: Json, root: bool)
    requires Describes(s, root) && Accepts(s, v) && (root || !IsEmpty(Clean(v)))
    ensures Accepts(Relax(s), Clean(v))
    decreases s
  {
    if s.enum.None? {
      AcceptedIsSatisfiable(s, v);
      match v
      case Obj(m) =>
        forall k | k in Clean(v).members && k in s.properties ensures Accepts(Relax(s.properties[k]), Clean(m[k])) {
          DescribedIsSound(s.properties[k], m[k], false);
        }
        DescribedObject(s, m, root);
      case Arr(items) =>
        if s.items.Some? {
          forall i | 0 <= i < |items| ensures Accepts(Relax(s.items.value), Clean(items[i])) {
            DescribedIsSound(s.items.value, items[i], true);
          }
        }
      case _ =>
    }
  }

  /** An accepted answer whose compacted form the published schema rejects. */
  ghost predicate IsBad(s: Schema, root: bool, v: Json) {
    Accepts(s, v) && (root || !IsEmpty(Clean(v))) && !Accepts(Relax(s), Clean(v))
  }

  lemma RejectedMember(s: Schema, c: map<string, Json>, k: string)
    requires k in s.properties && k in c && !Accepts(Relax(s.properties[k]), c[k])
    ensures !Accepts(Relax(s), Obj(c))
  {
    assert k in Relax(s).properties && Relax(s).properties[k] == Relax(s.properties[k]);
  }

  lemma BadMember(s: Schema, m: map<string, Json>, k: string, w: Json, root: bool)
    requires s.enum.None? && Accepts(s, Obj(m)) && k in s.properties && IsBad(s.properties[k], false, w)
    ensures IsBad(s, root, Obj(m[k := w]))
  {
    WithAllowed(s, m, k, w);
    var c := Clean(Obj(m[k := w])).members;
    assert k in c && c[k] == Clean(w);
    RejectedMember(s, c, k);
  }

  /** An accepted object in which member r cleans away, and another one stays where it must. */
  lemma LosesName(s: Schema, m: map<string, Json>, r: string, root: bool) returns (v: Json)
    requires s.enum.None? && Accepts(s, Obj(m)) && r in Kept(s) && !NameIsSafe(s, r, root)
    ensures Accepts(s, v) && v.Obj? && (root || !IsEmpty(Clean(v))) && r !in Clean(v).members
  {
    assert r in s.required && r in m;
    var w := if r in s.properties then EmptyWitness(s.properties[r]) else Null;
    WithAllowed(s, m, r, w);
    var n := m[r := w];
    assert r !in Clean(Obj(n)).members;
    v := Obj(n);
    if !root {
      var k, u := "", Json.Null;
      if s.additional {
        k := LongerThanAll(s.properties.Keys + {r});
        u := Bool(true);
      } else {
        k :| k in s.properties && k != r && Stays(s.properties[k]);
        u := StayingExample(s.properties[k]);
      }
      v := WithStaying(s, n, k, u);
    }
  }

  lemma BadEntries(s: Schema, w: Json, root: bool) returns (v: Json)
    requires s.enum.None? && s.items.Some? && AllowsEntries(s) && IsBad(s.items.value, true, w)
    ensures IsBad(s, root, v)
  {
    v := Entries(s, w);
    assert Clean(v).items[0] == Clean(w);
    assert Relax(s).items == Some(Relax(s.items.value));
  }

  lemma {:induction false} BadAnswer(s: Schema, root: bool) returns (v: Json)
    requires !Describes(s, root)
    ensures IsBad(s, root, v)
    decreases s, 1
  {
    if s.enum.Some? {
      v :| v in s.enum.value && IsBad(s, root, v);
    } else if s.items.Some? && AllowsEntries(s) && !Describes(s.items.value, true) {
      var w := BadAnswer(s.items.value, true);
      v := BadEntries(s, w, root);
    } else {
      v := BadObject(s, root);
    }
  }

  lemma BadObject(s: Schema, root: bool) returns (v: Json)
    requires !Describes(s, root) && s.enum.None? && !(s.items.Some? && AllowsEntries(s) && !Describes(s.items.value, true))
    ensures IsBad(s, root, v)
    decreases s, 0
  {
    var m := ExampleMembers(s);
    if k :| k in s.properties && !Describes(s.properties[k], false) {
      var w := BadAnswer(s.properties[k], false);
      BadMember(s, m, k, w, root);
      v := Obj(m[k := w]);
    } else {
      var r :| r in Kept(s) && !NameIsSafe(s, r, root);
      v := LosesName(s, m, r, root);
      LostNameRejected(s, v, r);
    }
  }

  lemma LostNameRejected(s: Schema, v: Json, r: string)
    requires v.Obj? && r in Kept(s) && r !in Clean(v).members
    ensures !Accepts(Relax(s), Clean(v))
  {
    assert !MembersFit(Relax(s), Clean(v).members);
  }

  /** For every schema, without any side condition: what is published for it accepts the compacted form of every
      accepted value exactly when the schema describes its compacted answers in this sense. */
  lemma SoundExactlyWhenDescribed(s: Schema)
    ensures SoundAt(s) <==> Describes(s, true)
  {
    if Describes(s, true) {
      forall v | Accepts(s, v) ensures Accepts(Relax(s), Clean(v)) { DescribedIsSound(s, v, true); }
    } else {
      var v := BadAnswer(s, true);
      assert Accepts(s, v) && !Accepts(Relax(s), Clean(v));
    }
  }

  lemma FaithfulIsDescribed(s: Schema)
    requires Faithful(s) && CleanEnums(s)
    ensures Describes(s, true)
  {
    FaithfulIsSoundEverywhere(s);
    SoundExactlyWhenDescribed(s);
  }

  /** A member that is always dropped may describe its answers as badly as it likes. */
  lemma UnfaithfulButDescribed()
    ensures var never := ANY.(kind := Some(ObjectKind), additional := false, required := ["a"],
                              properties := map["a" := ANY.(kind := Some(NullKind))]);
            var s := ANY.(kind := Some(ObjectKind), properties := map["k" := never]);
            !Faithful(s) && SoundAt(s)
  {
    var nothing := ANY.(kind := Some(NullKind));
    var never := ANY.(kind := Some(ObjectKind), additional := false, required := ["a"], properties := map["a" := nothing]);
    var s := ANY.(kind := Some(ObjectKind), properties := map["k" := never]);
    NullMemberIsUnfaithful(never, nothing);
    NullMemberIsDropped(never, nothing);
    assert s.properties["k"] == never && Kept(s) == [];
    assert !Faithful(s) && Describes(s, true);
    SoundExactlyWhenDescribed(s);
  }

  lemma NullMemberIsUnfaithful(s: Schema, nothing: Schema)
    requires nothing == ANY.(kind := Some(NullKind)) && ObjectCapable(s)
    requires s.required == ["a"] && s.properties == map["a" := nothing]
    ensures !Faithful(s)
  {
    assert "a" in s.required && "a" !in Droppable(s);
    assert "a" in Kept(s) && Empties(s.properties["a"]);
  }

  lemma NullMemberIsDropped(s: Schema, nothing: Schema)
    requires nothing == ANY.(kind := Some(NullKind)) && ObjectCapable(s) && !s.additional && s.items.None?
    requires s.required == ["a"] && s.properties == map["a" := nothing]
    ensures Describes(s, false)
  {
    assert !OthersStay(s, "a");
    forall r | r in Kept(s) ensures NameIsSafe(s, r, false) { assert r in s.required; }
    assert Kept(nothing) == [] && Describes(nothing, false);
  }
}
