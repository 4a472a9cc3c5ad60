/** How the validator reads a schema. A schema is an ordinary JSON value: a keyword of the wrong
    JSON type is ignored, and a schema that is not an object has no keywords at all. */
module ArgumentSchema {
  import opened Wrappers
  import opened Limits
  import opened Json

  /** A parsed 64-bit float. The parser itself is a parameter of the validator. */
  datatype F64 = NaN | Infinite(negative: bool) | Finite(x: real)

  type Parser = string -> Option<F64>

  /** `num == num.round()`: true of the infinities, false of NaN. */
  predicate IsIntegral(f: F64) {
    match f
    case NaN => false
    case Infinite(_) => true
    case Finite(x) => x == x.Floor as real
  }

  /** The saturating float-to-i64 cast; NaN casts to zero. */
  function SaturateI64(f: F64): (n: int)
    ensures MIN_I64 <= n <= MAX_I64
  {
    match f
    case NaN => 0
    case Infinite(negative) => if negative then MIN_I64 else MAX_I64
    case Finite(x) =>
      if x < MIN_I64 as real then MIN_I64
      else if x > MAX_I64 as real then MAX_I64
      else x.Floor
  }

  /** The union branches: `oneOf` shadows `anyOf`, even when it is not an array. */
  function Branches(schema: Value): Option<seq<Value>> {
    var union := if Get(schema, "oneOf").Some? then Get(schema, "oneOf") else Get(schema, "anyOf");
    if union.Some? && union.value.Array? then Some(union.value.elements) else None
  }

  function TypeName(schema: Value): Option<string> {
    var t := Get(schema, "type");
    if t.Some? && t.value.Str? then Some(t.value.s) else None
  }

  function Properties(schema: Value): Option<map<string, Value>> {
    var p := Get(schema, "properties");
    if p.Some? && p.value.Object? then Some(p.value.fields) else None
  }

  /** Non-string members of `required` are skipped. */
  predicate IsRequired(schema: Value, key: string) {
    var r := Get(schema, "required");
    r.Some? && r.value.Array? && Str(key) in r.value.elements
  }

  predicate EnumAllows(schema: Value, v: Value) {
    var e := Get(schema, "enum");
    e.Some? && e.value.Array? ==> v in e.value.elements
  }

  /** What the object rule does with one present key. */
  datatype Slot = Free | Under(schema: Value) | Trimmed

  /** Keys are policed only when `properties` is declared. An undeclared key is kept by
      `additionalProperties: true`, checked by a sub-schema object, and trimmed otherwise. */
  function SlotOf(schema: Value, key: string): Slot {
    match Properties(schema)
    case None => Free
    case Some(props) =>
      if key in props then Under(props[key])
      else match Get(schema, "additionalProperties")
        case Some(Bool(b)) => if b then Free else Trimmed
        case Some(Object(_)) => Under(Get(schema, "additionalProperties").value)
        case _ => Trimmed
  }

  /** The default a missing key is filled with, if its property schema has one. */
  function DefaultFor(schema: Value, key: string): Option<Value> {
    match Properties(schema)
    case None => None
    case Some(props) => if key in props then Get(props[key], "default") else None
  }
}
