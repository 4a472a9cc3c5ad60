/** The argument validator: a declarative account of what repair computes, free of any visiting order,
    which the in-place sequential algorithm is proved against elsewhere. Errors carry no text here: a failed validation
    discards the value, so only the verdict is observable. */
module ArgumentValidator {
  import opened Wrappers
  import opened Limits
  import opened Json
  import opened ArgumentSchema

  datatype Outcome = Rejected | Accepted(value: Value, repaired: bool)

  // ---------------------------------------------------------------- step 1: casts

  /** Whether a value is of the kind a castable type name asks for. */
  predicate OfKind(t: string, v: Value) {
    && (t == "boolean" ==> v.Bool?)
    && (t == "integer" ==> IsInteger(v))
    && (t == "number" ==> IsNumber(v))
    && (t == "array" ==> v.Array?)
  }

  /** The cast a schema's type asks for, or None when the value is left alone. A cast turns a value not
      of the declared kind into one that is, and says the same thing in another form: a boolean is
      spelled out by its text, a float is what the text parses to, and an integer within range equals
      the number the text parses to. A value is left alone only when it says nothing of that kind. */
  function CastTo(parse: Parser, schema: Value, v: Value): (r: Option<Value>)
    ensures r.Some? ==> (v.Str? || v.Object?) && !r.value.Str? && !r.value.Object?
    ensures r.Some? && r.value.Bool? ==> v == Str(if r.value.b then "true" else "false")
    ensures r.Some? && r.value.Float? ==> v.Str? && parse(v.s) == Some(Finite(r.value.x))
    ensures r.Some? && r.value.Int? ==> v.Str? && parse(v.s).Some? && MIN_I64 <= r.value.n <= MAX_I64
    ensures r.Some? && r.value.Int? && parse(v.s).value.Finite? && MIN_I64 as real <= parse(v.s).value.x <= MAX_I64 as real ==>
              r.value.n as real == parse(v.s).value.x
    ensures r.Some? && r.value.Array? ==> v.Object?
    ensures r.Some? ==> TypeName(schema).Some? && !OfKind(TypeName(schema).value, v) && OfKind(TypeName(schema).value, r.value)
    ensures r.None? && TypeName(schema) == Some("boolean") ==> v != Str("true") && v != Str("false")
    ensures r.None? && TypeName(schema) == Some("integer") && v.Str? ==> parse(v.s).None? || !IsIntegral(parse(v.s).value)
    ensures r.None? && TypeName(schema) == Some("number") && v.Str? ==> parse(v.s).None? || !parse(v.s).value.Finite?
    ensures r.None? && TypeName(schema) == Some("array") ==> !v.Object?
  {
    match (TypeName(schema), v)
    case (Some(t), Str(s)) =>
      if t == "boolean" then
        if s == "true" then Some(Bool(true)) else if s == "false" then Some(Bool(false)) else None
      else if t == "integer" then
        match parse(s) {
          case Some(f) => if IsIntegral(f) then Some(Int(SaturateI64(f))) else None
          case None => None
        }
      else if t == "number" then
        match parse(s) {
          case Some(Finite(x)) => Some(Float(x))
          case _ => None
        }
      else None
    case (Some(t), Object(fields)) =>
      if t == "array" then Some(Unwrap(fields)) else None
    case _ => None
  }

  /** An object with the single key `item` or `items`. */
  predicate IsEnvelope(fields: map<string, Value>) {
    fields.Keys == {"item"} || fields.Keys == {"items"}
  }

  lemma {:induction false} OnlyKey(fields: map<string, Value>, key: string)
    ensures |fields| == 1 && key in fields <==> fields.Keys == {key}
  {
    assert |fields| == |fields.Keys|;
    if |fields| == 1 && key in fields {
      var rest := fields.Keys - {key};
      assert fields.Keys == rest + {key} && |rest| == 0;
    }
  }

  /** A single-key `item`/`items` envelope gives up its array or wraps its one value; any other
      object becomes a one-element array. */
  function Unwrap(fields: map<string, Value>): (r: Value)
    ensures r.Array?
    ensures IsEnvelope(fields) ==> forall key | key in fields :: r == if fields[key].Array? then fields[key] else Array([fields[key]])
    ensures !IsEnvelope(fields) ==> r == Array([Object(fields)])
  {
    OnlyKey(fields, "item");
    OnlyKey(fields, "items");
    var inner: Option<Value> :=
      if |fields| != 1 then None
      else if "item" in fields then Some(fields["item"])
      else if "items" in fields then Some(fields["items"])
      else None;
    match inner
    case Some(v) => if v.Array? then v else Array([v])
    case None => Array([Object(fields)])
  }

  // ---------------------------------------------------------------- step 2: defaults

  ghost predicate MissesDefault(schema: Value, fields: map<string, Value>, key: string) {
    key !in fields && DefaultFor(schema, key).Some?
  }

  /** The object with every missing default added: nothing present changes, and nothing but a declared
      default appears. */
  ghost function Filled(schema: Value, fields: map<string, Value>): (r: map<string, Value>)
    ensures fields.Keys <= r.Keys && forall key | key in fields :: r[key] == fields[key]
    ensures forall key | key in r && key !in fields :: DefaultFor(schema, key) == Some(r[key])
    ensures forall key | DefaultFor(schema, key).Some? :: key in r
  {
    match Properties(schema)
    case None => fields
    case Some(props) =>
      fields + map key | key in props && MissesDefault(schema, fields, key) :: DefaultFor(schema, key).value
  }

  ghost function Typed(parse: Parser, schema: Value, v: Value): Value {
    if CastTo(parse, schema, v).Some? then CastTo(parse, schema, v).value else v
  }

  /** The value after steps 1 and 2. */
  ghost function Prepared(parse: Parser, schema: Value, v: Value): Value {
    var typed := Typed(parse, schema, v);
    if typed.Object? then Object(Filled(schema, typed.fields)) else typed
  }

  /** Whether steps 1 and 2 raise the repaired flag. */
  ghost predicate PreparationRepairs(parse: Parser, schema: Value, v: Value) {
    || CastTo(parse, schema, v).Some?
    || (v.Object? && exists key :: MissesDefault(schema, v.fields, key))
  }

  // ---------------------------------------------------------------- the whole repair

  /** What validation computes. Children are repaired independently of one another, so no visiting
      order appears; recursion is on the schema alone, because repair may grow the value. */
  ghost function Repair(parse: Parser, schema: Value, v: Value, isRoot: bool): Outcome
    decreases schema, 3
  {
    if Branches(schema).Some? then
      FirstBranch(parse, schema, v, isRoot, 0)
    else
      match Checked(parse, schema, Prepared(parse, schema, v), isRoot)
      case Rejected => Rejected
      case Accepted(out, deeper) =>
        if EnumAllows(schema, out) then Accepted(out, PreparationRepairs(parse, schema, v) || deeper) else Rejected
  }

  /** The first union branch from `i` on that accepts the original value. */
  ghost function FirstBranch(parse: Parser, schema: Value, v: Value, isRoot: bool, i: nat): Outcome
    requires Branches(schema).Some? && i <= |Branches(schema).value|
    decreases schema, 2, |Branches(schema).value| - i
  {
    var branches := Branches(schema).value;
    if i == |branches| then Rejected
    else
      var r := Repair(parse, branches[i], v, isRoot);
      if r.Accepted? then r else FirstBranch(parse, schema, v, isRoot, i + 1)
  }

  /** Step 3 without the enum test: the type rule, recursing into children. */
  ghost function Checked(parse: Parser, schema: Value, v: Value, isRoot: bool): Outcome
    decreases schema, 2
  {
    match TypeName(schema)
    case None => if isRoot && !v.Object? then Rejected else Accepted(v, false)
    case Some(t) =>
      if t == "object" then
        if v.Object? then CheckedFields(parse, schema, v.fields) else Rejected
      else if t == "array" then
        if v.Array? then CheckedElements(parse, schema, v.elements) else Rejected
      else if TypeAccepts(t, v) then Accepted(v, false) else Rejected
  }

  /** The scalar type rules; an unknown type name accepts everything. */
  predicate TypeAccepts(t: string, v: Value) {
    && (t == "string" ==> v.Str?)
    && (t == "number" ==> IsNumber(v))
    && (t == "integer" ==> IsInteger(v))
    && (t == "boolean" ==> v.Bool?)
  }

  /** What happens to the value under one kept key. */
  ghost function FieldOutcome(parse: Parser, schema: Value, key: string, v: Value): Outcome
    decreases schema, 0
  {
    match SlotOf(schema, key)
    case Under(sub) => Repair(parse, sub, v, false)
    case _ => Accepted(v, false)
  }

  ghost function CheckedFields(parse: Parser, schema: Value, fields: map<string, Value>): Outcome
    decreases schema, 1
  {
    if && (forall key | key in fields :: FieldOutcome(parse, schema, key, fields[key]).Accepted?)
       && (forall key | IsRequired(schema, key) :: key in fields && !SlotOf(schema, key).Trimmed?)
    then
      Accepted(
        Object(map key | key in fields && !SlotOf(schema, key).Trimmed? :: FieldOutcome(parse, schema, key, fields[key]).value),
        exists key | key in fields :: SlotOf(schema, key).Trimmed? || FieldOutcome(parse, schema, key, fields[key]).repaired)
    else Rejected
  }

  ghost function ElementOutcome(parse: Parser, schema: Value, v: Value): Outcome
    decreases schema, 0
  {
    match Get(schema, "items")
    case None => Accepted(v, false)
    case Some(items) => Repair(parse, items, v, false)
  }

  ghost function CheckedElements(parse: Parser, schema: Value, elements: seq<Value>): Outcome
    decreases schema, 1
  {
    if forall i | 0 <= i < |elements| :: ElementOutcome(parse, schema, elements[i]).Accepted? then
      Accepted(
        Array(seq(|elements|, i requires 0 <= i < |elements| && ElementOutcome(parse, schema, elements[i]).Accepted? =>
                                ElementOutcome(parse, schema, elements[i]).value)),
        exists i | 0 <= i < |elements| :: ElementOutcome(parse, schema, elements[i]).repaired)
    else Rejected
  }
}
