/** Laws of validation stated in the JSON a caller writes: what castable arguments stand for, what a
    union ignores, what keywords of the wrong type mean, and what an accepted value is like. */
module ValidatorLaws {
  import opened Wrappers
  import opened Limits
  import opened Json
  import opened ArgumentSchema
  import opened ArgumentValidator
  import opened ArgumentConformance

  // ---------------------------------------------------------------- what castable values stand for

  /** The same outcome with the repaired flag raised. */
  ghost function Flagged(r: Outcome): Outcome {
    if r.Accepted? then Accepted(r.value, true) else Rejected
  }

  /** A value that is cast and not further filled is validated as what it is cast to. */
  lemma {:induction false} CastStandsFor(parse: Parser, schema: Value, v: Value, meant: Value, isRoot: bool)
    requires Branches(schema).None? && CastTo(parse, schema, v) == Some(meant)
    ensures Repair(parse, schema, v, isRoot) == Flagged(Repair(parse, schema, meant, isRoot))
  {
    assert Prepared(parse, schema, v) == meant == Prepared(parse, schema, meant);
    assert PreparationRepairs(parse, schema, v);
  }

  /** Under type array, an `item` or `items` envelope around an array is validated as that array, around
      anything else as the array of it alone. */
  lemma {:induction false} EnvelopeStandsFor(parse: Parser, schema: Value, key: string, x: Value, isRoot: bool)
    requires Branches(schema).None? && TypeName(schema) == Some("array") && (key == "item" || key == "items")
    ensures x.Array? ==> Repair(parse, schema, Object(map[key := x]), isRoot) == Flagged(Repair(parse, schema, x, isRoot))
    ensures !x.Array? ==> Repair(parse, schema, Object(map[key := x]), isRoot) == Flagged(Repair(parse, schema, Array([x]), isRoot))
  {
    var fields := map[key := x];
    assert fields.Keys == {key} && key in fields && fields[key] == x;
    CastStandsFor(parse, schema, Object(fields), if x.Array? then x else Array([x]), isRoot);
  }

  /** Under type array, any other object is validated as the array of it alone. */
  lemma {:induction false} LoneObjectStandsFor(parse: Parser, schema: Value, fields: map<string, Value>, isRoot: bool)
    requires Branches(schema).None? && TypeName(schema) == Some("array")
    requires fields.Keys != {"item"} && fields.Keys != {"items"}
    ensures Repair(parse, schema, Object(fields), isRoot) == Flagged(Repair(parse, schema, Array([Object(fields)]), isRoot))
  {
    CastStandsFor(parse, schema, Object(fields), Array([Object(fields)]), isRoot);
  }

  /** A text under type boolean, number or integer is validated as what it says. */
  lemma {:induction false} TextStandsFor(parse: Parser, schema: Value, s: string, isRoot: bool)
    requires Branches(schema).None?
    ensures TypeName(schema) == Some("boolean") && s == "true" ==>
              Repair(parse, schema, Str(s), isRoot) == Flagged(Repair(parse, schema, Bool(true), isRoot))
    ensures TypeName(schema) == Some("boolean") && s == "false" ==>
              Repair(parse, schema, Str(s), isRoot) == Flagged(Repair(parse, schema, Bool(false), isRoot))
    ensures forall x | TypeName(schema) == Some("number") && parse(s) == Some(Finite(x)) ::
              Repair(parse, schema, Str(s), isRoot) == Flagged(Repair(parse, schema, Float(x), isRoot))
    ensures forall n: int | TypeName(schema) == Some("integer") && MIN_I64 <= n <= MAX_I64 && parse(s) == Some(Finite(n as real)) ::
              Repair(parse, schema, Str(s), isRoot) == Flagged(Repair(parse, schema, Int(n), isRoot))
  {
    var cast := CastTo(parse, schema, Str(s));
    if cast.Some? {
      CastStandsFor(parse, schema, Str(s), cast.value, isRoot);
    }
    forall n: int | TypeName(schema) == Some("integer") && MIN_I64 <= n <= MAX_I64 && parse(s) == Some(Finite(n as real))
      ensures cast == Some(Int(n))
    {
      assert (n as real).Floor == n;
    }
  }

  /** Leaving out a member that has a default is passing the default, with the flag raised. */
  lemma {:induction false} MissingStandsForDefault(parse: Parser, fields: map<string, Value>, members: map<string, Value>, key: string, isRoot: bool)
    requires "oneOf" !in fields && "anyOf" !in fields && ("type" in fields ==> fields["type"] != Str("array"))
    requires "properties" in fields && fields["properties"].Object? && key in fields["properties"].fields
    requires HasDefault(fields["properties"].fields[key]) && key !in members
    ensures var given := members[key := fields["properties"].fields[key].fields["default"]];
            Repair(parse, Object(fields), Object(members), isRoot) == Flagged(Repair(parse, Object(fields), Object(given), isRoot))
  {
    var schema := Object(fields);
    var given := members[key := fields["properties"].fields[key].fields["default"]];
    assert DefaultFor(schema, key) == Some(given[key]) && MissesDefault(schema, members, key);
    assert CastTo(parse, schema, Object(members)).None? && CastTo(parse, schema, Object(given)).None?;
    FilledAlike(schema, members, given, key);
  }

  lemma {:induction false} FilledAlike(schema: Value, members: map<string, Value>, given: map<string, Value>, key: string)
    requires key !in members && DefaultFor(schema, key).Some? && given == members[key := DefaultFor(schema, key).value]
    ensures Filled(schema, members) == Filled(schema, given)
  {
    var a, b := Filled(schema, members), Filled(schema, given);
    forall k
      ensures (k in a <==> k in b) && (k in a ==> a[k] == b[k])
    {
      assert k in a ==> k in members || DefaultFor(schema, k) == Some(a[k]);
      assert k in b ==> k in given || DefaultFor(schema, k) == Some(b[k]);
    }
    assert a.Keys == b.Keys;
  }

  // ---------------------------------------------------------------- what is ignored

  lemma {:induction false} SameBranchesSameUnion(parse: Parser, s: Value, t: Value, v: Value, isRoot: bool, i: nat)
    requires Branches(s).Some? && Branches(s) == Branches(t) && i <= |Branches(s).value|
    ensures FirstBranch(parse, s, v, isRoot, i) == FirstBranch(parse, t, v, isRoot, i)
    decreases |Branches(s).value| - i
  {
    if i < |Branches(s).value| {
      SameBranchesSameUnion(parse, s, t, v, isRoot, i + 1);
    }
  }

  /** Two schemas that say the same in every keyword but `default`. */
  ghost predicate SaysTheSame(s: Value, t: Value) {
    && Branches(s) == Branches(t) && TypeName(s) == TypeName(t) && Properties(s) == Properties(t)
    && Get(s, "items") == Get(t, "items") && Get(s, "additionalProperties") == Get(t, "additionalProperties")
    && (forall key :: IsRequired(s, key) <==> IsRequired(t, key))
    && (forall v :: EnumAllows(s, v) <==> EnumAllows(t, v))
  }

  lemma {:induction false} SameSayingSameVerdict(parse: Parser, s: Value, t: Value, v: Value, isRoot: bool)
    requires SaysTheSame(s, t)
    ensures Repair(parse, s, v, isRoot) == Repair(parse, t, v, isRoot)
  {
    if Branches(s).Some? {
      SameBranchesSameUnion(parse, s, t, v, isRoot, 0);
    } else {
      SamePreparation(parse, s, t, v);
      SameCheck(parse, s, t, Prepared(parse, s, v), isRoot);
    }
  }

  lemma {:induction false} SameCheck(parse: Parser, s: Value, t: Value, w: Value, isRoot: bool)
    requires SaysTheSame(s, t)
    ensures Checked(parse, s, w, isRoot) == Checked(parse, t, w, isRoot)
  {
    if TypeName(s) == Some("object") && w.Object? {
      SameSlots(s, t);
      SameFields(parse, s, t, w.fields);
    } else if TypeName(s) == Some("array") && w.Array? {
      SameElements(parse, s, t, w.elements);
    }
  }

  lemma {:induction false} SamePreparation(parse: Parser, s: Value, t: Value, v: Value)
    requires TypeName(s) == TypeName(t) && Properties(s) == Properties(t)
    ensures Prepared(parse, s, v) == Prepared(parse, t, v)
    ensures PreparationRepairs(parse, s, v) == PreparationRepairs(parse, t, v)
  {
    assert CastTo(parse, s, v) == CastTo(parse, t, v);
    SameDefaults(s, t);
    var typed := Typed(parse, s, v);
    if typed.Object? {
      assert Filled(s, typed.fields) == Filled(t, typed.fields);
    }
  }

  lemma {:induction false} SameDefaults(s: Value, t: Value)
    requires Properties(s) == Properties(t)
    ensures forall fields, key :: MissesDefault(s, fields, key) <==> MissesDefault(t, fields, key)
    ensures forall key :: DefaultFor(s, key) == DefaultFor(t, key)
  {
  }

  lemma {:induction false} SameSlots(s: Value, t: Value)
    requires Properties(s) == Properties(t) && Get(s, "additionalProperties") == Get(t, "additionalProperties")
    ensures forall key :: SlotOf(s, key) == SlotOf(t, key)
  {
  }

  /** The two schemas treat the value under this key alike. */
  ghost predicate SameTreatment(parse: Parser, s: Value, t: Value, key: string, v: Value) {
    SlotOf(s, key) == SlotOf(t, key) && FieldOutcome(parse, s, key, v) == FieldOutcome(parse, t, key, v)
  }

  lemma {:induction false} SameFields(parse: Parser, s: Value, t: Value, fields: map<string, Value>)
    requires forall key :: SlotOf(s, key) == SlotOf(t, key)
    requires forall key :: IsRequired(s, key) <==> IsRequired(t, key)
    ensures CheckedFields(parse, s, fields) == CheckedFields(parse, t, fields)
  {
    forall key | key in fields
      ensures SameTreatment(parse, s, t, key, fields[key])
    {
      assert SlotOf(s, key) == SlotOf(t, key);
    }
    AcceptedAlike(parse, s, t, fields);
    if CheckedFields(parse, s, fields).Accepted? {
      SameFieldValues(parse, s, t, fields);
      FieldsFlagExact(parse, s, fields);
      FieldsFlagExact(parse, t, fields);
    }
  }

  ghost predicate FieldsFine(parse: Parser, schema: Value, fields: map<string, Value>) {
    forall key | key in fields :: FieldOutcome(parse, schema, key, fields[key]).Accepted?
  }

  ghost predicate RequiredKept(schema: Value, fields: map<string, Value>) {
    forall key | IsRequired(schema, key) :: key in fields && !SlotOf(schema, key).Trimmed?
  }

  lemma {:induction false} AcceptedWhenFine(parse: Parser, schema: Value, fields: map<string, Value>)
    ensures CheckedFields(parse, schema, fields).Accepted? <==> FieldsFine(parse, schema, fields) && RequiredKept(schema, fields)
  {
  }

  lemma {:induction false} AcceptedAlike(parse: Parser, s: Value, t: Value, fields: map<string, Value>)
    requires forall key | key in fields :: FieldOutcome(parse, s, key, fields[key]) == FieldOutcome(parse, t, key, fields[key])
    requires forall key :: SlotOf(s, key) == SlotOf(t, key)
    requires forall key :: IsRequired(s, key) <==> IsRequired(t, key)
    ensures CheckedFields(parse, s, fields).Accepted? <==> CheckedFields(parse, t, fields).Accepted?
  {
    AcceptedWhenFine(parse, s, fields);
    AcceptedWhenFine(parse, t, fields);
    RequiredAlike(s, t, fields);
  }

  lemma {:induction false} RequiredAlike(s: Value, t: Value, fields: map<string, Value>)
    requires forall key :: SlotOf(s, key) == SlotOf(t, key)
    requires forall key :: IsRequired(s, key) <==> IsRequired(t, key)
    ensures RequiredKept(s, fields) <==> RequiredKept(t, fields)
  {
  }

  lemma {:induction false} SameFieldValues(parse: Parser, s: Value, t: Value, fields: map<string, Value>)
    requires forall key | key in fields :: SameTreatment(parse, s, t, key, fields[key])
    requires CheckedFields(parse, s, fields).Accepted? && CheckedFields(parse, t, fields).Accepted?
    ensures CheckedFields(parse, t, fields).value == CheckedFields(parse, s, fields).value
  {
    var a, b := CheckedFields(parse, s, fields).value.fields, CheckedFields(parse, t, fields).value.fields;
    forall key
      ensures (key in a <==> key in b) && (key in a ==> a[key] == b[key])
    {
      CheckedFieldAt(parse, s, fields, key);
      CheckedFieldAt(parse, t, fields, key);
      assert key in fields ==> SameTreatment(parse, s, t, key, fields[key]);
    }
    assert a.Keys == b.Keys;
  }

  lemma {:induction false} CheckedFieldAt(parse: Parser, schema: Value, fields: map<string, Value>, key: string)
    requires CheckedFields(parse, schema, fields).Accepted?
    ensures var out := CheckedFields(parse, schema, fields).value.fields;
            && (key in out <==> key in fields && !SlotOf(schema, key).Trimmed?)
            && (key in out ==> FieldOutcome(parse, schema, key, fields[key]).Accepted? && out[key] == FieldOutcome(parse, schema, key, fields[key]).value)
  {
  }

  lemma {:induction false} SameElements(parse: Parser, s: Value, t: Value, elements: seq<Value>)
    requires Get(s, "items") == Get(t, "items")
    ensures CheckedElements(parse, s, elements) == CheckedElements(parse, t, elements)
  {
    assert forall i | 0 <= i < |elements| :: ElementOutcome(parse, s, elements[i]) == ElementOutcome(parse, t, elements[i]);
    var a, b := CheckedElements(parse, s, elements), CheckedElements(parse, t, elements);
    if a.Accepted? {
      assert a.value.elements == b.value.elements;
      ElementsFlagExact(parse, s, elements);
      ElementsFlagExact(parse, t, elements);
    }
  }

  /** A union ignores every keyword beside it; `anyOf` means what `oneOf` does, and counts only where
      there is no `oneOf`. */
  lemma {:induction false} UnionIgnoresSiblings(parse: Parser, fields: map<string, Value>, branches: seq<Value>, v: Value, isRoot: bool)
    requires if "oneOf" in fields then fields["oneOf"] == Array(branches) else "anyOf" in fields && fields["anyOf"] == Array(branches)
    ensures Repair(parse, Object(fields), v, isRoot) == Repair(parse, Object(map["oneOf" := Array(branches)]), v, isRoot)
  {
    SameBranchesSameUnion(parse, Object(fields), Object(map["oneOf" := Array(branches)]), v, isRoot, 0);
  }

  /** A keyword of the wrong JSON type might as well not be there; so might non-string members of
      `required`. */
  lemma {:induction false} WrongTypedKeywordIgnored(parse: Parser, fields: map<string, Value>, keyword: string, v: Value, isRoot: bool)
    requires keyword in fields
    requires || (keyword == "type" && !fields[keyword].Str?)
             || (keyword == "properties" && !fields[keyword].Object?)
             || (keyword in {"required", "enum"} && !fields[keyword].Array?)
             || (keyword == "required" && forall key :: Str(key) !in fields[keyword].elements)
    ensures Repair(parse, Object(fields), v, isRoot) == Repair(parse, Object(fields - {keyword}), v, isRoot)
  {
    SameSayingSameVerdict(parse, Object(fields), Object(fields - {keyword}), v, isRoot);
  }

  /** A `oneOf` that is not an array is no union, and still hides `anyOf`. */
  lemma {:induction false} BrokenUnionHides(parse: Parser, fields: map<string, Value>, v: Value, isRoot: bool)
    requires "oneOf" in fields && !fields["oneOf"].Array?
    ensures Repair(parse, Object(fields), v, isRoot) == Repair(parse, Object(fields - {"oneOf", "anyOf"}), v, isRoot)
  {
    SameSayingSameVerdict(parse, Object(fields), Object(fields - {"oneOf", "anyOf"}), v, isRoot);
  }

  // ---------------------------------------------------------------- accepted values

  /** What the type keyword promises of a value. */
  ghost predicate IsA(t: string, v: Value) {
    match t
    case "string" => v.Str?
    case "boolean" => v.Bool?
    case "number" => v.Int? || v.Float?
    case "integer" => v.Int? && -0x8000_0000_0000_0000 <= v.n <= 0xffff_ffff_ffff_ffff
    case "object" => v.Object?
    case "array" => v.Array?
    case _ => true
  }

  /** What a caller may rely on of an accepted value, keyword by keyword, for a schema that is no union. */
  lemma {:induction false} AcceptedMeans(parse: Parser, fields: map<string, Value>, v: Value, isRoot: bool)
    requires "oneOf" !in fields && "anyOf" !in fields && Repair(parse, Object(fields), v, isRoot).Accepted?
    ensures var out := Repair(parse, Object(fields), v, isRoot).value;
            && (forall t | "type" in fields && fields["type"] == Str(t) :: IsA(t, out))
            && ("type" !in fields && isRoot ==> out.Object?)
            && ("enum" in fields && fields["enum"].Array? ==> out in fields["enum"].elements)
            && ("type" in fields && fields["type"] == Str("object") ==> RequiredHeld(fields, out) && ExtrasTrimmed(fields, out))
            && (out.Object? ==> DefaultsHeld(fields, out))
            && ("type" in fields && fields["type"] == Str("object") ==> MembersConform(fields, out))
            && ("type" in fields && fields["type"] == Str("array") && "items" in fields ==>
                  forall i | 0 <= i < |out.elements| :: Conforms(fields["items"], out.elements[i], false))
  {
    var schema := Object(fields);
    var out := Repair(parse, schema, v, isRoot).value;
    RepairedConforms(parse, schema, v, isRoot);
    if out.Object? && "properties" in fields && fields["properties"].Object? {
      forall key | key in fields["properties"].fields && HasDefault(fields["properties"].fields[key])
        ensures key in out.fields
      {
        DefaultKept(parse, schema, v, isRoot, key);
      }
    }
    if "type" in fields && fields["type"] == Str("object") {
      assert FieldsConform(schema, out.fields);
      assert forall key | IsRequired(schema, key) :: key in out.fields;
    } else if "type" in fields && fields["type"] == Str("array") && "items" in fields {
      assert ElementsConform(schema, out.elements) && Get(schema, "items") == Some(fields["items"]);
    }
  }

  lemma {:induction false} DefaultKept(parse: Parser, schema: Value, v: Value, isRoot: bool, key: string)
    requires Branches(schema).None? && DefaultFor(schema, key).Some?
    requires Repair(parse, schema, v, isRoot).Accepted? && Repair(parse, schema, v, isRoot).value.Object?
    ensures key in Repair(parse, schema, v, isRoot).value.fields
  {
    var typed, w := Typed(parse, schema, v), Prepared(parse, schema, v);
    var out := Checked(parse, schema, w, isRoot);
    assert out.Accepted? && out.value == Repair(parse, schema, v, isRoot).value;
    ObjectsCheckedKeepDeclared(parse, schema, w, isRoot, key);
  }

  lemma {:induction false} ObjectsCheckedKeepDeclared(parse: Parser, schema: Value, w: Value, isRoot: bool, key: string)
    requires Checked(parse, schema, w, isRoot).Accepted? && Checked(parse, schema, w, isRoot).value.Object?
    requires DefaultFor(schema, key).Some?
    ensures w.Object? && (key in w.fields ==> key in Checked(parse, schema, w, isRoot).value.fields)
  {
    assert SlotOf(schema, key).Under?;
    assert TypeName(schema) != Some("object") && TypeName(schema) != Some("array") ==> Checked(parse, schema, w, isRoot).value == w;
  }

  ghost predicate RequiredHeld(fields: map<string, Value>, out: Value)
    requires out.Object?
  {
    "required" in fields && fields["required"].Array? ==>
      forall key | Str(key) in fields["required"].elements :: key in out.fields
  }

  /** With declared properties, and no `additionalProperties` or a false one, nothing undeclared is left. */
  ghost predicate ExtrasTrimmed(fields: map<string, Value>, out: Value)
    requires out.Object?
  {
    && "properties" in fields && fields["properties"].Object?
    && ("additionalProperties" !in fields || fields["additionalProperties"] == Bool(false))
    ==> out.fields.Keys <= fields["properties"].fields.Keys
  }

  ghost predicate DefaultsHeld(fields: map<string, Value>, out: Value)
    requires out.Object?
  {
    "properties" in fields && fields["properties"].Object? ==>
      forall key | key in fields["properties"].fields :: HasDefault(fields["properties"].fields[key]) ==> key in out.fields
  }

  /** Declared members conform to their property schema, others to a sub-schema given for them. */
  ghost predicate MembersConform(fields: map<string, Value>, out: Value)
    requires out.Object?
  {
    "properties" in fields && fields["properties"].Object? ==>
      var props := fields["properties"].fields;
      forall key | key in out.fields ::
        && (key in props ==> Conforms(props[key], out.fields[key], false))
        && (key !in props && "additionalProperties" in fields && fields["additionalProperties"].Object? ==>
              Conforms(fields["additionalProperties"], out.fields[key], false))
  }

  ghost predicate HasDefault(property: Value) {
    property.Object? && "default" in property.fields
  }

  /** A value that is what a scalar type asks for, with nothing else asked, is accepted as it is. */
  lemma {:induction false} ScalarsAccepted(parse: Parser, t: string, v: Value, isRoot: bool)
    requires t in {"string", "boolean", "number", "integer"} && IsA(t, v)
    ensures Repair(parse, Object(map["type" := Str(t)]), v, isRoot) == Accepted(v, false)
  {
    var schema := Object(map["type" := Str(t)]);
    assert TypeName(schema) == Some(t) && CastTo(parse, schema, v).None?;
    assert Prepared(parse, schema, v) == v && !PreparationRepairs(parse, schema, v);
  }
}
