/** The optional value used throughout the model. */
module Wrappers {
  datatype Option<+T> = None | Some(value: T)
}

/** The ranges of the source's integer types, and saturation at a type's maximum. */
module Limits {
  const MAX_U32: nat := 0xffff_ffff
  const MAX_U64: nat := 0xffff_ffff_ffff_ffff
  const MIN_I64: int := -0x8000_0000_0000_0000
  const MAX_I64: int := 0x7fff_ffff_ffff_ffff

  function Capped(n: nat, max: nat): nat {
    if n <= max then n else max
  }
}

/** JSON values as the tool layer sees them: owned trees with string-keyed objects.
    Numbers keep the integer/float distinction, because equality and the integer test do. */
module Json {
  import opened Wrappers
  import opened Limits

  datatype Value =
    | Null
    | Bool(b: bool)
    | Int(n: int)
    | Float(x: real)
    | Str(s: string)
    | Array(elements: seq<Value>)
    | Object(fields: map<string, Value>)

  predicate IsNumber(v: Value) {
    v.Int? || v.Float?
  }

  /** An integer that fits the signed or the unsigned 64-bit form. */
  predicate IsInteger(v: Value) {
    v.Int? && MIN_I64 <= v.n <= MAX_U64
  }

  /** Member lookup; anything but an object has no members. */
  function Get(v: Value, key: string): (r: Option<Value>)
    ensures r.Some? ==> v.Object? && key in v.fields && r.value == v.fields[key]
  {
    if v.Object? && key in v.fields then Some(v.fields[key]) else None
  }
}
