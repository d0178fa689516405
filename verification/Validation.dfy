/** Validation of a provider's answer: it ends without a complaint exactly on what the schema accepts, and what it
    complains about is there (validateAt in internal/application/schema.go, output mode). */
module Validation {
  import opened Json
  import opened Schema
  import opened Order
  import opened Wrappers

  datatype Place = Member(name: string) | Item(index: nat)

  datatype Reason =
    | WrongType | NotAllowedValue | NotAllowed(name: string) | Missing(name: string)
    | TooFewItems | TooManyItems | TooShort | TooLong | TooSmall | TooLarge

  datatype Violation = Violation(path: seq<Place>, reason: Reason)

  /** The reason holds of the value itself. */
  predicate ViolatesHere(s: Schema, v: Json, reason: Reason) {
    match reason
    case WrongType => s.kind.Some? && !HasKind(s.kind.value, v)
    case NotAllowedValue => s.enum.Some? && v !in s.enum.value
    case NotAllowed(name) => v.Obj? && name in v.members && name !in s.properties && !s.additional
    case Missing(name) => v.Obj? && name in s.required && name !in v.members
    case TooFewItems => v.Arr? && s.minItems.Some? && |v.items| < s.minItems.value
    case TooManyItems => v.Arr? && s.maxItems.Some? && |v.items| > s.maxItems.value
    case TooShort => v.Str? && s.minLength.Some? && |v.s| < s.minLength.value
    case TooLong => v.Str? && s.maxLength.Some? && |v.s| > s.maxLength.value
    case TooSmall => v.Num? && s.minimum.Some? && !AtMost(Value(s.minimum.value), Value(v.lit))
    case TooLarge => v.Num? && s.maximum.Some? && !AtMost(Value(v.lit), Value(s.maximum.value))
  }

  /** The path leads to a value, and to the schema it is held to, of which the reason holds. */
  predicate Violates(s: Schema, v: Json, path: seq<Place>, reason: Reason)
    decreases |path|
  {
    if path == [] then ViolatesHere(s, v, reason)
    else match path[0]
      case Member(k) =>
        v.Obj? && k in v.members && k in s.properties && Violates(s.properties[k], v.members[k], path[1..], reason)
      case Item(i) =>
        v.Arr? && i < |v.items| && s.items.Some? && Violates(s.items.value, v.items[i], path[1..], reason)
  }

  /** A violation anywhere is one of the whole. */
  lemma {:induction false} ViolationRefutes(s: Schema, v: Json, path: seq<Place>, reason: Reason)
    requires Violates(s, v, path, reason)
    ensures !Accepts(s, v)
    decreases |path|
  {
    if path != [] {
      match path[0]
      case Member(k) => ViolationRefutes(s.properties[k], v.members[k], path[1..], reason);
      case Item(i) => ViolationRefutes(s.items.value, v.items[i], path[1..], reason);
    }
  }

  predicate Finds(s: Schema, v: Json, r: Option<Violation>) {
    r.Some? ==> Violates(s, v, r.value.path, r.value.reason)
  }

  /** `validateAt`. */
  method Validate(s: Schema, v: Json) returns (r: Option<Violation>)
    ensures r.None? <==> Accepts(s, v)
    ensures Finds(s, v, r)
    decreases s, 1
  {
    if s.kind.Some? && !HasKind(s.kind.value, v) {
      return Some(Violation([], WrongType));
    }
    if s.enum.Some? && v !in s.enum.value {
      return Some(Violation([], NotAllowedValue));
    }
    match v
    case Obj(members) =>
      r := CheckNames(s, members);
      if r.None? {
        r := ValidateMembers(s, members);
      }
    case Arr(items) => r := ValidateItems(s, items);
    case Str(text) =>
      if s.minLength.Some? && |text| < s.minLength.value {
        return Some(Violation([], TooShort));
      }
      if s.maxLength.Some? && |text| > s.maxLength.value {
        return Some(Violation([], TooLong));
      }
      return None;
    case Num(lit) =>
      if s.minimum.Some? && !AtMost(Value(s.minimum.value), Value(lit)) {
        return Some(Violation([], TooSmall));
      }
      if s.maximum.Some? && !AtMost(Value(lit), Value(s.maximum.value)) {
        return Some(Violation([], TooLarge));
      }
      return None;
    case _ => return None;
  }

  method CheckNames(s: Schema, members: map<string, Json>) returns (r: Option<Violation>)
    ensures r.None? <==> MembersFit(s, members)
    ensures r.Some? ==> r.value.path == [] && ViolatesHere(s, Obj(members), r.value.reason)
  {
    r := CheckAllowed(s, members);
    if r.None? {
      r := CheckRequired(s, members);
    }
  }

  method CheckAllowed(s: Schema, members: map<string, Json>) returns (r: Option<Violation>)
    ensures r.None? <==> forall k | k in members :: k in s.properties || s.additional
    ensures r.Some? ==> r.value.path == [] && ViolatesHere(s, Obj(members), r.value.reason)
  {
    var names := Sorted(members.Keys);
    for i := 0 to |names|
      invariant forall j | 0 <= j < i :: names[j] in s.properties || s.additional
    {
      assert names[i] in names;
      if names[i] !in s.properties && !s.additional {
        return Some(Violation([], NotAllowed(names[i])));
      }
    }
    forall k | k in members ensures k in s.properties || s.additional { assert k in names; }
    return None;
  }

  method CheckRequired(s: Schema, members: map<string, Json>) returns (r: Option<Violation>)
    ensures r.None? <==> forall k | k in s.required :: k in members
    ensures r.Some? ==> r.value.path == [] && ViolatesHere(s, Obj(members), r.value.reason)
  {
    for i := 0 to |s.required|
      invariant forall j | 0 <= j < i :: s.required[j] in members
    {
      if s.required[i] !in members {
        return Some(Violation([], Missing(s.required[i])));
      }
    }
    return None;
  }

  method ValidateMembers(s: Schema, members: map<string, Json>) returns (r: Option<Violation>)
    ensures r.None? <==> forall k | k in members && k in s.properties :: Accepts(s.properties[k], members[k])
    ensures Finds(s, Obj(members), r)
    decreases s, 0
  {
    var names := Sorted(members.Keys);
    for i := 0 to |names|
      invariant forall j | 0 <= j < i && names[j] in s.properties ::
                  names[j] in members && Accepts(s.properties[names[j]], members[names[j]])
    {
      var name := names[i];
      assert name in names;
      if name in s.properties {
        r := Validate(s.properties[name], members[name]);
        if r.Some? {
          return Some(Within(s, Obj(members), Member(name), s.properties[name], members[name], r.value));
        }
      }
    }
    forall k | k in members && k in s.properties ensures Accepts(s.properties[k], members[k]) { assert k in names; }
    return None;
  }

  method ValidateItems(s: Schema, items: seq<Json>) returns (r: Option<Violation>)
    ensures r.None? <==> WithinInt(s.minItems, |items|, s.maxItems) &&
                         (s.items.Some? ==> forall i | 0 <= i < |items| :: Accepts(s.items.value, items[i]))
    ensures Finds(s, Arr(items), r)
    decreases s, 0
  {
    if s.minItems.Some? && |items| < s.minItems.value {
      return Some(Violation([], TooFewItems));
    }
    if s.maxItems.Some? && |items| > s.maxItems.value {
      return Some(Violation([], TooManyItems));
    }
    if s.items.None? {
      return None;
    }
    for i := 0 to |items|
      invariant forall j | 0 <= j < i :: Accepts(s.items.value, items[j])
    {
      r := Validate(s.items.value, items[i]);
      if r.Some? {
        return Some(Within(s, Arr(items), Item(i), s.items.value, items[i], r.value));
      }
    }
    return None;
  }

  /** A violation inside a member or an entry, seen from outside. */
  function Within(s: Schema, v: Json, place: Place, t: Schema, u: Json, inner: Violation): (r: Violation)
    requires Violates(t, u, inner.path, inner.reason)
    requires match place
             case Member(k) => v.Obj? && k in v.members && k in s.properties && t == s.properties[k] && u == v.members[k]
             case Item(i) => v.Arr? && i < |v.items| && s.items == Some(t) && u == v.items[i]
    ensures Violates(s, v, r.path, r.reason) && r.reason == inner.reason && r.path == [place] + inner.path
  {
    assert ([place] + inner.path)[1..] == inner.path;
    Violation([place] + inner.path, inner.reason)
  }
}
