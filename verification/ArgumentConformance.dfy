/** What validated arguments are good for: a repair-free conformance relation, and the laws that
    tie it to the repairer. */
module ArgumentConformance {
  import opened Wrappers
  import opened Json
  import opened ArgumentSchema
  import opened ArgumentValidator

  // ---------------------------------------------------------------- reference relations

  /** The dialect's own notion of an acceptable value, written without any repair: a union asks for
      some branch and ignores its sibling keywords. */
  ghost predicate Conforms(schema: Value, v: Value, isRoot: bool)
    decreases schema, 2
  {
    match Branches(schema)
    case Some(branches) => exists i | 0 <= i < |branches| :: Conforms(branches[i], v, isRoot)
    case None => ShapeConforms(schema, v, isRoot) && EnumAllows(schema, v)
  }

  ghost predicate ShapeConforms(schema: Value, v: Value, isRoot: bool)
    decreases schema, 1
  {
    match TypeName(schema)
    case None => isRoot ==> v.Object?
    case Some(t) =>
      if t == "object" then v.Object? && FieldsConform(schema, v.fields)
      else if t == "array" then v.Array? && ElementsConform(schema, v.elements)
      else TypeAccepts(t, v)
  }

  /** Required keys are present; declared keys conform; an undeclared key next to declared
      `properties` is allowed, checked or forbidden as `additionalProperties` says. */
  ghost predicate FieldsConform(schema: Value, fields: map<string, Value>)
    decreases schema, 0
  {
    && (forall key | IsRequired(schema, key) :: key in fields)
    && (Properties(schema).Some? ==>
          var props := Properties(schema).value;
          && (forall key | key in fields && key in props :: Conforms(props[key], fields[key], false))
          && match Get(schema, "additionalProperties")
             case Some(Bool(true)) => true
             case Some(Object(members)) =>
               forall key | key in fields && key !in props ::
                 Conforms(Get(schema, "additionalProperties").value, fields[key], false)
             case _ => fields.Keys <= props.Keys)
  }

  ghost predicate ElementsConform(schema: Value, elements: seq<Value>)
    decreases schema, 0
  {
    Get(schema, "items").Some? ==>
      forall i | 0 <= i < |elements| :: Conforms(Get(schema, "items").value, elements[i], false)
  }

  /** No union occurs at any schema the validator consults. */
  ghost predicate UnionFree(schema: Value)
    decreases schema
  {
    && Branches(schema).None?
    && (TypeName(schema) == Some("array") && Get(schema, "items").Some? ==> UnionFree(Get(schema, "items").value))
    && (TypeName(schema) == Some("object") ==>
          forall key | SlotOf(schema, key).Under? :: UnionFree(SlotOf(schema, key).schema))
  }

  // ---------------------------------------------------------------- soundness

  /** Whatever validation accepts, its output conforms. */
  lemma {:induction false} RepairedConforms(parse: Parser, schema: Value, v: Value, isRoot: bool)
    requires Repair(parse, schema, v, isRoot).Accepted?
    ensures Conforms(schema, Repair(parse, schema, v, isRoot).value, isRoot)
    decreases schema, 1
  {
    if Branches(schema).Some? {
      var i := AcceptingBranch(parse, schema, v, isRoot, 0);
      RepairedConforms(parse, Branches(schema).value[i], v, isRoot);
    } else {
      var w := Prepared(parse, schema, v);
      if TypeName(schema) == Some("object") {
        CheckedFieldsConform(parse, schema, w.fields);
      } else if TypeName(schema) == Some("array") {
        CheckedElementsConform(parse, schema, w.elements);
      }
    }
  }

  lemma {:induction false} CheckedFieldsConform(parse: Parser, schema: Value, fields: map<string, Value>)
    requires CheckedFields(parse, schema, fields).Accepted?
    ensures FieldsConform(schema, CheckedFields(parse, schema, fields).value.fields)
    decreases schema, 0
  {
    forall key | key in fields && SlotOf(schema, key).Under?
      ensures Conforms(SlotOf(schema, key).schema, FieldOutcome(parse, schema, key, fields[key]).value, false)
    {
      RepairedConforms(parse, SlotOf(schema, key).schema, fields[key], false);
    }
  }

  lemma {:induction false} CheckedElementsConform(parse: Parser, schema: Value, elements: seq<Value>)
    requires CheckedElements(parse, schema, elements).Accepted?
    ensures ElementsConform(schema, CheckedElements(parse, schema, elements).value.elements)
    decreases schema, 0
  {
    if Get(schema, "items").Some? {
      forall i | 0 <= i < |elements|
        ensures Conforms(Get(schema, "items").value, ElementOutcome(parse, schema, elements[i]).value, false)
      {
        RepairedConforms(parse, Get(schema, "items").value, elements[i], false);
      }
    }
  }

  /** A union answers as its first accepting branch run on the original value: the branches tried
      before it all refuse that value and leave nothing behind. */
  lemma {:induction false} AcceptingBranch(parse: Parser, schema: Value, v: Value, isRoot: bool, from: nat) returns (i: nat)
    requires Branches(schema).Some? && from <= |Branches(schema).value|
    requires FirstBranch(parse, schema, v, isRoot, from).Accepted?
    ensures from <= i < |Branches(schema).value|
    ensures FirstBranch(parse, schema, v, isRoot, from) == Repair(parse, Branches(schema).value[i], v, isRoot)
    ensures forall j | from <= j < i :: Repair(parse, Branches(schema).value[j], v, isRoot).Rejected?
    decreases |Branches(schema).value| - from
  {
    if Repair(parse, Branches(schema).value[from], v, isRoot).Accepted? {
      i := from;
    } else {
      i := AcceptingBranch(parse, schema, v, isRoot, from + 1);
    }
  }

  // ---------------------------------------------------------------- the repaired flag

  /** The flag is exact: validation reports a repair if and only if it changed the value. */
  lemma {:induction false} RepairFlagExact(parse: Parser, schema: Value, v: Value, isRoot: bool)
    requires Repair(parse, schema, v, isRoot).Accepted?
    ensures Repair(parse, schema, v, isRoot).repaired <==> Repair(parse, schema, v, isRoot).value != v
    decreases schema, 1
  {
    if Branches(schema).Some? {
      var i := AcceptingBranch(parse, schema, v, isRoot, 0);
      RepairFlagExact(parse, Branches(schema).value[i], v, isRoot);
    } else {
      PreparationFlagExact(parse, schema, v);
      var w := Prepared(parse, schema, v);
      if TypeName(schema) == Some("object") {
        FieldsFlagExact(parse, schema, w.fields);
      } else if TypeName(schema) == Some("array") {
        ElementsFlagExact(parse, schema, w.elements);
      }
    }
  }

  /** Casts change the kind of value; defaults add a declared key, which trimming never removes. */
  lemma {:induction false} PreparationFlagExact(parse: Parser, schema: Value, v: Value)
    ensures PreparationRepairs(parse, schema, v) <==> Prepared(parse, schema, v) != v
    ensures v.Object? && Prepared(parse, schema, v).Object? && Prepared(parse, schema, v) != v ==>
              exists key :: key in Prepared(parse, schema, v).fields && key !in v.fields && SlotOf(schema, key).Under?
  {
    if v.Object? && CastTo(parse, schema, v).None? {
      if key :| MissesDefault(schema, v.fields, key) {
        assert key in Filled(schema, v.fields) && SlotOf(schema, key).Under?;
      } else {
        assert Filled(schema, v.fields) == v.fields;
      }
    }
  }

  lemma {:induction false} FieldsFlagExact(parse: Parser, schema: Value, fields: map<string, Value>)
    requires CheckedFields(parse, schema, fields).Accepted?
    ensures CheckedFields(parse, schema, fields).repaired <==> CheckedFields(parse, schema, fields).value != Object(fields)
    decreases schema, 0
  {
    var out := CheckedFields(parse, schema, fields).value.fields;
    forall key | key in fields
      ensures FieldOutcome(parse, schema, key, fields[key]).repaired <==> FieldOutcome(parse, schema, key, fields[key]).value != fields[key]
    {
      if SlotOf(schema, key).Under? {
        RepairFlagExact(parse, SlotOf(schema, key).schema, fields[key], false);
      }
    }
    if CheckedFields(parse, schema, fields).repaired {
      var key :| key in fields && (SlotOf(schema, key).Trimmed? || FieldOutcome(parse, schema, key, fields[key]).repaired);
      assert key in fields && (key !in out || out[key] != fields[key]);
    } else {
      assert out == fields;
    }
  }

  lemma {:induction false} ElementsFlagExact(parse: Parser, schema: Value, elements: seq<Value>)
    requires CheckedElements(parse, schema, elements).Accepted?
    ensures CheckedElements(parse, schema, elements).repaired <==> CheckedElements(parse, schema, elements).value != Array(elements)
    decreases schema, 0
  {
    var out := CheckedElements(parse, schema, elements).value.elements;
    forall i | 0 <= i < |elements|
      ensures ElementOutcome(parse, schema, elements[i]).repaired <==> out[i] != elements[i]
    {
      if Get(schema, "items").Some? {
        RepairFlagExact(parse, Get(schema, "items").value, elements[i], false);
      }
    }
  }
}
