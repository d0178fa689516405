/** Output schemas and what they accept (internal/application/schema.go, output mode). */
module Schema {
  import opened Json
  import opened Wrappers

  datatype Kind = ObjectKind | ArrayKind | StringKind | IntegerKind | NumberKind | BooleanKind | NullKind
                | OtherKind(name: string)

  /** A schema that was read: every keyword is absent or well-formed. `additional` is false only for
      `additionalProperties: false`; a schema under that keyword counts as true on output. */
  datatype Schema = Schema(
    kind: Option<Kind>,
    enum: Option<seq<Json>>,
    properties: map<string, Schema>,
    required: seq<string>,
    additional: bool,
    minProperties: Option<int>,
    items: Option<Schema>,
    minItems: Option<int>,
    maxItems: Option<int>,
    minLength: Option<int>,
    maxLength: Option<int>,
    minimum: Option<Literal>,
    maximum: Option<Literal>)

  predicate HasKind(kind: Kind, v: Json) {
    match kind
    case ObjectKind => v.Obj?
    case ArrayKind => v.Arr?
    case StringKind => v.Str?
    case IntegerKind => v.Num? && IsInt64(v.lit)
    case NumberKind => v.Num?
    case BooleanKind => v.Bool?
    case NullKind => v.Null?
    case OtherKind(_) => false
  }

  predicate WithinInt(low: Option<int>, n: int, high: Option<int>) {
    (low.Some? ==> low.value <= n) && (high.Some? ==> n <= high.value)
  }

  /** Which members an object may and must have. */
  predicate MembersFit(s: Schema, m: map<string, Json>) {
    (forall k | k in m :: k in s.properties || s.additional) && (forall r | r in s.required :: r in m)
  }

  /** `validateAt` without error texts, with input == false: `minProperties`, `uniqueItems`, `anyOf` and a schema
      for additional members are not held against a provider's answer. */
  predicate Accepts(s: Schema, v: Json)
    decreases s
  {
    && (s.kind.Some? ==> HasKind(s.kind.value, v))
    && (s.enum.Some? ==> v in s.enum.value)
    && match v {
         case Obj(m) =>
           MembersFit(s, m) && forall k | k in m && k in s.properties :: Accepts(s.properties[k], m[k])
         case Arr(items) =>
           WithinInt(s.minItems, |items|, s.maxItems) &&
           (s.items.Some? ==> forall i | 0 <= i < |items| :: Accepts(s.items.value, items[i]))
         case Str(text) => WithinInt(s.minLength, |text|, s.maxLength)
         case Num(lit) =>
           (s.minimum.Some? ==> AtMost(Value(s.minimum.value), Value(lit))) &&
           (s.maximum.Some? ==> AtMost(Value(lit), Value(s.maximum.value)))
         case _ => true
       }
  }
}
