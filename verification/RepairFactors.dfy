/** Repair and validation are interleaved in one pass. On union-free schemas the pass is equal to two
    plain ones: edit the whole value first, without judging anything, then test conformance. */
module RepairFactors {
  import opened Wrappers
  import opened Json
  import opened ArgumentSchema
  import opened ArgumentValidator
  import opened ArgumentConformance

  /** All edits a schema asks for, at every depth, with no verdict. */
  ghost function Edit(parse: Parser, schema: Value, v: Value): Value
    decreases schema, 2
  {
    var w := Prepared(parse, schema, v);
    if TypeName(schema) == Some("object") && w.Object? then Object(EditFields(parse, schema, w.fields))
    else if TypeName(schema) == Some("array") && w.Array? then Array(EditElements(parse, schema, w.elements))
    else w
  }

  ghost function EditFields(parse: Parser, schema: Value, fields: map<string, Value>): map<string, Value>
    decreases schema, 1
  {
    map key | key in fields && !SlotOf(schema, key).Trimmed? :: EditField(parse, schema, key, fields[key])
  }

  ghost function EditElements(parse: Parser, schema: Value, elements: seq<Value>): (r: seq<Value>)
    ensures |r| == |elements|
    decreases schema, 1
  {
    seq(|elements|, i requires 0 <= i < |elements| => EditElement(parse, schema, elements[i]))
  }

  ghost function EditField(parse: Parser, schema: Value, key: string, v: Value): Value
    decreases schema, 0
  {
    if SlotOf(schema, key).Under? then Edit(parse, SlotOf(schema, key).schema, v) else v
  }

  ghost function EditElement(parse: Parser, schema: Value, v: Value): Value
    decreases schema, 0
  {
    if Get(schema, "items").Some? then Edit(parse, Get(schema, "items").value, v) else v
  }

  // ---------------------------------------------------------------- what is accepted is the edit

  lemma {:induction false} AcceptedIsEdit(parse: Parser, schema: Value, v: Value, isRoot: bool)
    requires UnionFree(schema) && Repair(parse, schema, v, isRoot).Accepted?
    ensures Repair(parse, schema, v, isRoot).value == Edit(parse, schema, v)
    decreases schema, 1
  {
    var w := Prepared(parse, schema, v);
    if TypeName(schema) == Some("object") {
      AcceptedFields(parse, schema, w.fields);
    } else if TypeName(schema) == Some("array") {
      AcceptedElements(parse, schema, w.elements);
    }
  }

  lemma {:induction false} AcceptedFields(parse: Parser, schema: Value, fields: map<string, Value>)
    requires UnionFree(schema) && TypeName(schema) == Some("object") && CheckedFields(parse, schema, fields).Accepted?
    ensures CheckedFields(parse, schema, fields).value == Object(EditFields(parse, schema, fields))
    decreases schema, 0
  {
    forall key | key in fields
      ensures FieldOutcome(parse, schema, key, fields[key]).value == EditField(parse, schema, key, fields[key])
    {
      assert FieldOutcome(parse, schema, key, fields[key]).Accepted?;
      if SlotOf(schema, key).Under? {
        AcceptedIsEdit(parse, SlotOf(schema, key).schema, fields[key], false);
      }
    }
    assert CheckedFields(parse, schema, fields).value.fields == EditFields(parse, schema, fields);
  }

  lemma {:induction false} AcceptedElements(parse: Parser, schema: Value, elements: seq<Value>)
    requires UnionFree(schema) && TypeName(schema) == Some("array") && CheckedElements(parse, schema, elements).Accepted?
    ensures CheckedElements(parse, schema, elements).value == Array(EditElements(parse, schema, elements))
    decreases schema, 0
  {
    forall i | 0 <= i < |elements|
      ensures ElementOutcome(parse, schema, elements[i]).value == EditElement(parse, schema, elements[i])
    {
      assert ElementOutcome(parse, schema, elements[i]).Accepted?;
      if Get(schema, "items").Some? {
        AcceptedIsEdit(parse, Get(schema, "items").value, elements[i], false);
      }
    }
    assert CheckedElements(parse, schema, elements).value.elements == EditElements(parse, schema, elements);
  }

  // ---------------------------------------------------------------- a conforming edit is accepted

  lemma {:induction false} ConformingAccepted(parse: Parser, schema: Value, v: Value, isRoot: bool)
    requires UnionFree(schema) && Conforms(schema, Edit(parse, schema, v), isRoot)
    ensures Repair(parse, schema, v, isRoot).Accepted?
    decreases schema, 1
  {
    var w := Prepared(parse, schema, v);
    if TypeName(schema) == Some("object") {
      ConformingFields(parse, schema, w.fields);
      AcceptedFields(parse, schema, w.fields);
    } else if TypeName(schema) == Some("array") {
      ConformingElements(parse, schema, w.elements);
      AcceptedElements(parse, schema, w.elements);
    }
  }

  lemma {:induction false} EditedField(parse: Parser, schema: Value, fields: map<string, Value>, key: string)
    requires key in fields && SlotOf(schema, key).Under?
    ensures key in EditFields(parse, schema, fields)
    ensures EditFields(parse, schema, fields)[key] == Edit(parse, SlotOf(schema, key).schema, fields[key])
  {
    assert EditField(parse, schema, key, fields[key]) == Edit(parse, SlotOf(schema, key).schema, fields[key]);
  }

  lemma {:induction false} EditedElement(parse: Parser, schema: Value, elements: seq<Value>, i: nat)
    requires i < |elements| && Get(schema, "items").Some?
    ensures EditElements(parse, schema, elements)[i] == Edit(parse, Get(schema, "items").value, elements[i])
  {
    assert EditElement(parse, schema, elements[i]) == Edit(parse, Get(schema, "items").value, elements[i]);
  }

  lemma {:induction false} ConformingFields(parse: Parser, schema: Value, fields: map<string, Value>)
    requires UnionFree(schema) && TypeName(schema) == Some("object") && FieldsConform(schema, EditFields(parse, schema, fields))
    ensures CheckedFields(parse, schema, fields).Accepted?
    decreases schema, 0
  {
    var edited := EditFields(parse, schema, fields);
    forall key | key in fields
      ensures FieldOutcome(parse, schema, key, fields[key]).Accepted?
    {
      if SlotOf(schema, key).Under? {
        EditedField(parse, schema, fields, key);
        assert Conforms(SlotOf(schema, key).schema, edited[key], false);
        ConformingAccepted(parse, SlotOf(schema, key).schema, fields[key], false);
      }
    }
    assert forall key | IsRequired(schema, key) :: key in edited;
  }

  lemma {:induction false} ConformingElements(parse: Parser, schema: Value, elements: seq<Value>)
    requires UnionFree(schema) && TypeName(schema) == Some("array") && ElementsConform(schema, EditElements(parse, schema, elements))
    ensures CheckedElements(parse, schema, elements).Accepted?
    decreases schema, 0
  {
    forall i | 0 <= i < |elements|
      ensures ElementOutcome(parse, schema, elements[i]).Accepted?
    {
      if Get(schema, "items").Some? {
        var edited := EditElements(parse, schema, elements);
        EditedElement(parse, schema, elements, i);
        assert Conforms(Get(schema, "items").value, edited[i], false);
        ConformingAccepted(parse, Get(schema, "items").value, elements[i], false);
      }
    }
  }

  /** On every union-free schema and every value: validation succeeds exactly when the edited value
      conforms, returns that value, and flags it exactly when it differs. */
  lemma {:induction false} RepairIsEditThenCheck(parse: Parser, schema: Value, v: Value, isRoot: bool)
    requires UnionFree(schema)
    ensures var edited := Edit(parse, schema, v);
            Repair(parse, schema, v, isRoot) == if Conforms(schema, edited, isRoot) then Accepted(edited, edited != v) else Rejected
  {
    if Repair(parse, schema, v, isRoot).Accepted? {
      AcceptedIsEdit(parse, schema, v, isRoot);
      RepairedConforms(parse, schema, v, isRoot);
      RepairFlagExact(parse, schema, v, isRoot);
    } else if Conforms(schema, Edit(parse, schema, v), isRoot) {
      ConformingAccepted(parse, schema, v, isRoot);
    }
  }
}
