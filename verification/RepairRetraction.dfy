/** Repair as a retraction: which values it leaves alone, and when validating twice is validating
    once. */
module RepairRetraction {
  import opened Wrappers
  import opened Json
  import opened ArgumentSchema
  import opened ArgumentValidator
  import opened ArgumentConformance

  /** Nothing is left to inject: every default the schema would supply is present, at every depth the
      validator visits. Repair is mentioned only at a union, where the branches before the resting
      one must refuse the value; on a union-free schema this is a plain property of the value. */
  ghost predicate AtRest(parse: Parser, schema: Value, v: Value, isRoot: bool)
    decreases schema, 1
  {
    match Branches(schema)
    case Some(branches) =>
      exists i | 0 <= i < |branches| ::
        && Conforms(branches[i], v, isRoot) && AtRest(parse, branches[i], v, isRoot)
        && forall j | 0 <= j < i :: Repair(parse, branches[j], v, isRoot).Rejected?
    case None =>
      && (v.Object? ==> forall key | DefaultFor(schema, key).Some? :: key in v.fields)
      && (TypeName(schema) == Some("object") && v.Object? ==> FieldsAtRest(parse, schema, v.fields))
      && (TypeName(schema) == Some("array") && v.Array? ==> ElementsAtRest(parse, schema, v.elements))
  }

  ghost predicate FieldsAtRest(parse: Parser, schema: Value, fields: map<string, Value>)
    decreases schema, 0
  {
    forall key | key in fields && SlotOf(schema, key).Under? :: AtRest(parse, SlotOf(schema, key).schema, fields[key], false)
  }

  ghost predicate ElementsAtRest(parse: Parser, schema: Value, elements: seq<Value>)
    decreases schema, 0
  {
    Get(schema, "items").Some? ==>
      forall i | 0 <= i < |elements| :: AtRest(parse, Get(schema, "items").value, elements[i], false)
  }

  // ---------------------------------------------------------------- fixed points

  /** On every schema, unions included, a value comes back unchanged and unflagged exactly when it
      conforms and is at rest. */
  lemma {:induction false} FixedPoints(parse: Parser, schema: Value, v: Value, isRoot: bool)
    ensures Repair(parse, schema, v, isRoot) == Accepted(v, false)
       <==> Conforms(schema, v, isRoot) && AtRest(parse, schema, v, isRoot)
  {
    if Repair(parse, schema, v, isRoot) == Accepted(v, false) {
      RepairedConforms(parse, schema, v, isRoot);
      UnchangedAtRest(parse, schema, v, isRoot);
    }
    if Conforms(schema, v, isRoot) && AtRest(parse, schema, v, isRoot) {
      RestingUnchanged(parse, schema, v, isRoot);
    }
  }

  lemma {:induction false} UnchangedAtRest(parse: Parser, schema: Value, v: Value, isRoot: bool)
    requires Repair(parse, schema, v, isRoot) == Accepted(v, false)
    ensures AtRest(parse, schema, v, isRoot)
    decreases schema, 1
  {
    if Branches(schema).Some? {
      var i := AcceptingBranch(parse, schema, v, isRoot, 0);
      RepairedConforms(parse, Branches(schema).value[i], v, isRoot);
      UnchangedAtRest(parse, Branches(schema).value[i], v, isRoot);
    } else {
      PreparationFlagExact(parse, schema, v);
      if v.Object? {
        forall key | DefaultFor(schema, key).Some?
          ensures key in v.fields
        {
          assert !MissesDefault(schema, v.fields, key);
        }
        if TypeName(schema) == Some("object") {
          UnchangedFieldsAtRest(parse, schema, v.fields);
        }
      } else if v.Array? && TypeName(schema) == Some("array") {
        UnchangedElementsAtRest(parse, schema, v.elements);
      }
    }
  }

  lemma {:induction false} UnchangedFieldsAtRest(parse: Parser, schema: Value, fields: map<string, Value>)
    requires CheckedFields(parse, schema, fields) == Accepted(Object(fields), false)
    ensures FieldsAtRest(parse, schema, fields)
    decreases schema, 0
  {
    forall key | key in fields && SlotOf(schema, key).Under?
      ensures AtRest(parse, SlotOf(schema, key).schema, fields[key], false)
    {
      assert !FieldOutcome(parse, schema, key, fields[key]).repaired;
      RepairFlagExact(parse, SlotOf(schema, key).schema, fields[key], false);
      UnchangedAtRest(parse, SlotOf(schema, key).schema, fields[key], false);
    }
  }

  lemma {:induction false} UnchangedElementsAtRest(parse: Parser, schema: Value, elements: seq<Value>)
    requires CheckedElements(parse, schema, elements) == Accepted(Array(elements), false)
    ensures ElementsAtRest(parse, schema, elements)
    decreases schema, 0
  {
    if Get(schema, "items").Some? {
      forall i | 0 <= i < |elements|
        ensures AtRest(parse, Get(schema, "items").value, elements[i], false)
      {
        assert !ElementOutcome(parse, schema, elements[i]).repaired;
        RepairFlagExact(parse, Get(schema, "items").value, elements[i], false);
        UnchangedAtRest(parse, Get(schema, "items").value, elements[i], false);
      }
    }
  }

  lemma {:induction false} RestingUnchanged(parse: Parser, schema: Value, v: Value, isRoot: bool)
    requires Conforms(schema, v, isRoot) && AtRest(parse, schema, v, isRoot)
    ensures Repair(parse, schema, v, isRoot) == Accepted(v, false)
    decreases schema, 1
  {
    if Branches(schema).Some? {
      var branches := Branches(schema).value;
      var i :| 0 <= i < |branches|
        && Conforms(branches[i], v, isRoot) && AtRest(parse, branches[i], v, isRoot)
        && forall j | 0 <= j < i :: Repair(parse, branches[j], v, isRoot).Rejected?;
      RestingUnchanged(parse, branches[i], v, isRoot);
      SkipRejected(parse, schema, v, isRoot, i);
    } else {
      assert CastTo(parse, schema, v).None?;
      if v.Object? {
        assert forall key :: !MissesDefault(schema, v.fields, key);
        assert Filled(schema, v.fields) == v.fields;
        if TypeName(schema) == Some("object") {
          RestingFieldsUnchanged(parse, schema, v.fields);
        }
      } else if v.Array? && TypeName(schema) == Some("array") {
        RestingElementsUnchanged(parse, schema, v.elements);
      }
    }
  }

  lemma {:induction false} SkipRejected(parse: Parser, schema: Value, v: Value, isRoot: bool, i: nat)
    requires Branches(schema).Some? && i < |Branches(schema).value|
    requires forall j | 0 <= j < i :: Repair(parse, Branches(schema).value[j], v, isRoot).Rejected?
    ensures FirstBranch(parse, schema, v, isRoot, 0) == FirstBranch(parse, schema, v, isRoot, i)
  {
    if i > 0 {
      SkipRejected(parse, schema, v, isRoot, i - 1);
    }
  }

  lemma {:induction false} RestingFieldsUnchanged(parse: Parser, schema: Value, fields: map<string, Value>)
    requires FieldsConform(schema, fields) && FieldsAtRest(parse, schema, fields)
    ensures CheckedFields(parse, schema, fields) == Accepted(Object(fields), false)
    decreases schema, 0
  {
    forall key | key in fields
      ensures !SlotOf(schema, key).Trimmed? && FieldOutcome(parse, schema, key, fields[key]) == Accepted(fields[key], false)
    {
      if SlotOf(schema, key).Under? {
        RestingUnchanged(parse, SlotOf(schema, key).schema, fields[key], false);
      }
    }
    var out := CheckedFields(parse, schema, fields);
    assert out.Accepted? && out.value.fields == fields;
  }

  lemma {:induction false} RestingElementsUnchanged(parse: Parser, schema: Value, elements: seq<Value>)
    requires ElementsConform(schema, elements) && ElementsAtRest(parse, schema, elements)
    ensures CheckedElements(parse, schema, elements) == Accepted(Array(elements), false)
    decreases schema, 0
  {
    forall i | 0 <= i < |elements|
      ensures ElementOutcome(parse, schema, elements[i]) == Accepted(elements[i], false)
    {
      if Get(schema, "items").Some? {
        RestingUnchanged(parse, Get(schema, "items").value, elements[i], false);
      }
    }
    var out := CheckedElements(parse, schema, elements);
    assert out.Accepted? && out.value.elements == elements;
  }

  // ---------------------------------------------------------------- idempotence

  /** Branch `k` of a union is the one that answers for the value. */
  ghost predicate Answers(parse: Parser, schema: Value, v: Value, isRoot: bool, k: nat)
    requires Branches(schema).Some?
  {
    var branches := Branches(schema).value;
    && k < |branches| && Repair(parse, branches[k], v, isRoot).Accepted?
    && forall j | 0 <= j < k :: Repair(parse, branches[j], v, isRoot).Rejected?
  }

  /** What must hold of an input for its repaired form to be final. Only unions matter, wherever the
      validator meets one: the branch that answered must answer again for its own output and be
      settled itself, or the branch that takes over must have nothing to change. */
  ghost predicate Settles(parse: Parser, schema: Value, v: Value, isRoot: bool)
    decreases schema, 1
  {
    match Branches(schema)
    case Some(branches) =>
      forall k | 0 <= k < |branches| && Answers(parse, schema, v, isRoot, k) ::
        var out := Repair(parse, branches[k], v, isRoot).value;
        || (Answers(parse, schema, out, isRoot, k) && Settles(parse, branches[k], v, isRoot))
        || TakenOver(parse, schema, out, isRoot, k)
    case None =>
      var w := Prepared(parse, schema, v);
      && (TypeName(schema) == Some("object") && w.Object? ==> FieldsSettle(parse, schema, w.fields))
      && (TypeName(schema) == Some("array") && w.Array? ==> ElementsSettle(parse, schema, w.elements))
  }

  /** Another branch than `k` answers for the value, and leaves it alone. */
  ghost predicate TakenOver(parse: Parser, schema: Value, out: Value, isRoot: bool, k: nat)
    requires Branches(schema).Some?
  {
    exists j | 0 <= j < |Branches(schema).value| && j != k ::
      Answers(parse, schema, out, isRoot, j) && Repair(parse, Branches(schema).value[j], out, isRoot).value == out
  }

  ghost predicate FieldsSettle(parse: Parser, schema: Value, fields: map<string, Value>)
    decreases schema, 0
  {
    forall key | key in fields && SlotOf(schema, key).Under? :: Settles(parse, SlotOf(schema, key).schema, fields[key], false)
  }

  ghost predicate ElementsSettle(parse: Parser, schema: Value, elements: seq<Value>)
    decreases schema, 0
  {
    Get(schema, "items").Some? ==>
      forall i | 0 <= i < |elements| :: Settles(parse, Get(schema, "items").value, elements[i], false)
  }

  lemma {:induction false} AnswerIs(parse: Parser, schema: Value, v: Value, isRoot: bool, k: nat)
    requires Branches(schema).Some? && Answers(parse, schema, v, isRoot, k)
    ensures Repair(parse, schema, v, isRoot) == Repair(parse, Branches(schema).value[k], v, isRoot)
    ensures forall j | 0 <= j < |Branches(schema).value| && Answers(parse, schema, v, isRoot, j) :: j == k
  {
    SkipRejected(parse, schema, v, isRoot, k);
  }

  /** Some branch answers for what a union accepts. */
  lemma {:induction false} SomeoneAnswers(parse: Parser, schema: Value, v: Value, isRoot: bool) returns (k: nat)
    requires Branches(schema).Some? && Repair(parse, schema, v, isRoot).Accepted?
    ensures Answers(parse, schema, v, isRoot, k)
  {
    k := AcceptingBranch(parse, schema, v, isRoot, 0);
  }

  /** An output is at rest exactly when its second validation returns it as it is. */
  lemma {:induction false} RestsExactly(parse: Parser, schema: Value, v: Value, isRoot: bool)
    requires Repair(parse, schema, v, isRoot).Accepted?
    ensures var out := Repair(parse, schema, v, isRoot).value;
            AtRest(parse, schema, out, isRoot) <==> Repair(parse, schema, out, isRoot) == Accepted(out, false)
  {
    RepairedConforms(parse, schema, v, isRoot);
    FixedPoints(parse, schema, Repair(parse, schema, v, isRoot).value, isRoot);
  }

  /** The output is at rest exactly when the input settles. */
  lemma {:induction false} RestsWhenSettled(parse: Parser, schema: Value, v: Value, isRoot: bool)
    requires Repair(parse, schema, v, isRoot).Accepted?
    ensures AtRest(parse, schema, Repair(parse, schema, v, isRoot).value, isRoot) <==> Settles(parse, schema, v, isRoot)
    decreases schema, 2
  {
    if Branches(schema).Some? {
      var k := SomeoneAnswers(parse, schema, v, isRoot);
      AnswerIs(parse, schema, v, isRoot, k);
      RestsWhenSettled(parse, Branches(schema).value[k], v, isRoot);
      UnionRests(parse, schema, v, isRoot, k);
    } else {
      PlainRests(parse, schema, v, isRoot);
    }
  }

  /** Only one branch answers, so settling is about that one. */
  lemma {:induction false} SettlesAt(parse: Parser, schema: Value, v: Value, isRoot: bool, k: nat)
    requires Branches(schema).Some? && Answers(parse, schema, v, isRoot, k)
    ensures var branch := Branches(schema).value[k];
            var out := Repair(parse, branch, v, isRoot).value;
            Settles(parse, schema, v, isRoot) <==>
              (Answers(parse, schema, out, isRoot, k) && Settles(parse, branch, v, isRoot)) || TakenOver(parse, schema, out, isRoot, k)
  {
    AnswerIs(parse, schema, v, isRoot, k);
  }

  lemma {:induction false} UnionRests(parse: Parser, schema: Value, v: Value, isRoot: bool, k: nat)
    requires Branches(schema).Some? && Answers(parse, schema, v, isRoot, k)
    requires var branch := Branches(schema).value[k];
             AtRest(parse, branch, Repair(parse, branch, v, isRoot).value, isRoot) <==> Settles(parse, branch, v, isRoot)
    ensures AtRest(parse, schema, Repair(parse, Branches(schema).value[k], v, isRoot).value, isRoot) <==> Settles(parse, schema, v, isRoot)
  {
    AnswerIs(parse, schema, v, isRoot, k);
    SettlesAt(parse, schema, v, isRoot, k);
    RestsExactly(parse, schema, v, isRoot);
    RestsExactly(parse, Branches(schema).value[k], v, isRoot);
    var out := Repair(parse, Branches(schema).value[k], v, isRoot).value;
    if Repair(parse, schema, out, isRoot).Accepted? {
      var j := SomeoneAnswers(parse, schema, out, isRoot);
      AnswerIs(parse, schema, out, isRoot, j);
      RepairFlagExact(parse, Branches(schema).value[j], out, isRoot);
      assert j != k ==> (TakenOver(parse, schema, out, isRoot, k) <==> Repair(parse, Branches(schema).value[j], out, isRoot).value == out);
    } else {
      NobodyAnswers(parse, schema, out, isRoot);
    }
  }

  lemma {:induction false} NobodyAnswers(parse: Parser, schema: Value, v: Value, isRoot: bool)
    requires Branches(schema).Some? && Repair(parse, schema, v, isRoot).Rejected?
    ensures forall k: nat :: !Answers(parse, schema, v, isRoot, k)
  {
    forall k: nat
      ensures !Answers(parse, schema, v, isRoot, k)
    {
      if Answers(parse, schema, v, isRoot, k) {
        AnswerIs(parse, schema, v, isRoot, k);
      }
    }
  }

  lemma {:induction false} PlainRests(parse: Parser, schema: Value, v: Value, isRoot: bool)
    requires Branches(schema).None? && Repair(parse, schema, v, isRoot).Accepted?
    ensures AtRest(parse, schema, Repair(parse, schema, v, isRoot).value, isRoot) <==> Settles(parse, schema, v, isRoot)
    decreases schema, 1
  {
    var w := Prepared(parse, schema, v);
    if w.Object? {
      var typed := Typed(parse, schema, v);
      forall key | DefaultFor(schema, key).Some?
        ensures key in w.fields && SlotOf(schema, key).Under?
      {
        if key !in typed.fields {
          assert MissesDefault(schema, typed.fields, key);
        }
      }
      if TypeName(schema) == Some("object") {
        FieldsRest(parse, schema, w.fields);
      }
    } else if w.Array? && TypeName(schema) == Some("array") {
      ElementsRest(parse, schema, w.elements);
    }
  }

  lemma {:induction false} FieldsRest(parse: Parser, schema: Value, fields: map<string, Value>)
    requires CheckedFields(parse, schema, fields).Accepted?
    ensures FieldsAtRest(parse, schema, CheckedFields(parse, schema, fields).value.fields) <==> FieldsSettle(parse, schema, fields)
    decreases schema, 0
  {
    var out := CheckedFields(parse, schema, fields).value.fields;
    forall key | key in fields && SlotOf(schema, key).Under?
      ensures key in out && (AtRest(parse, SlotOf(schema, key).schema, out[key], false) <==> Settles(parse, SlotOf(schema, key).schema, fields[key], false))
    {
      assert FieldOutcome(parse, schema, key, fields[key]).Accepted?;
      RestsWhenSettled(parse, SlotOf(schema, key).schema, fields[key], false);
    }
  }

  lemma {:induction false} ElementsRest(parse: Parser, schema: Value, elements: seq<Value>)
    requires CheckedElements(parse, schema, elements).Accepted?
    ensures ElementsAtRest(parse, schema, CheckedElements(parse, schema, elements).value.elements) <==> ElementsSettle(parse, schema, elements)
    decreases schema, 0
  {
    var out := CheckedElements(parse, schema, elements).value.elements;
    if Get(schema, "items").Some? {
      var items := Get(schema, "items").value;
      forall i | 0 <= i < |elements|
        ensures AtRest(parse, items, out[i], false) <==> Settles(parse, items, elements[i], false)
      {
        assert ElementOutcome(parse, schema, elements[i]).Accepted?;
        RestsWhenSettled(parse, items, elements[i], false);
      }
    }
  }

  /** Without unions everything settles. */
  lemma {:induction false} UnionFreeSettles(parse: Parser, schema: Value, v: Value, isRoot: bool)
    requires UnionFree(schema)
    ensures Settles(parse, schema, v, isRoot)
    decreases schema
  {
    var w := Prepared(parse, schema, v);
    if TypeName(schema) == Some("object") && w.Object? {
      forall key | key in w.fields && SlotOf(schema, key).Under?
        ensures Settles(parse, SlotOf(schema, key).schema, w.fields[key], false)
      {
        UnionFreeSettles(parse, SlotOf(schema, key).schema, w.fields[key], false);
      }
    } else if TypeName(schema) == Some("array") && w.Array? && Get(schema, "items").Some? {
      forall i | 0 <= i < |w.elements|
        ensures Settles(parse, Get(schema, "items").value, w.elements[i], false)
      {
        UnionFreeSettles(parse, Get(schema, "items").value, w.elements[i], false);
      }
    }
  }

  /** On a union-free schema every output is at rest. */
  lemma {:induction false} UnionFreeOutputAtRest(parse: Parser, schema: Value, v: Value, isRoot: bool)
    requires UnionFree(schema) && Repair(parse, schema, v, isRoot).Accepted?
    ensures AtRest(parse, schema, Repair(parse, schema, v, isRoot).value, isRoot)
  {
    UnionFreeSettles(parse, schema, v, isRoot);
    RestsWhenSettled(parse, schema, v, isRoot);
  }

  /** Validating twice equals validating once if and only if the input settles, and on a union-free
      schema it always does. */
  lemma {:induction false} ValidatingTwice(parse: Parser, schema: Value, v: Value, isRoot: bool)
    requires Repair(parse, schema, v, isRoot).Accepted?
    ensures var out := Repair(parse, schema, v, isRoot).value;
            && (Repair(parse, schema, out, isRoot) == Accepted(out, false) <==> Settles(parse, schema, v, isRoot))
            && (UnionFree(schema) ==> Repair(parse, schema, out, isRoot) == Accepted(out, false))
  {
    RestsExactly(parse, schema, v, isRoot);
    RestsWhenSettled(parse, schema, v, isRoot);
    if UnionFree(schema) {
      UnionFreeSettles(parse, schema, v, isRoot);
    }
  }

  // ---------------------------------------------------------------- unions break idempotence

  /** Keywords of an object schema that demands `a` and nothing else. */
  ghost predicate DemandsA(schema: Value) {
    && Branches(schema).None? && TypeName(schema) == Some("object") && Properties(schema).None?
    && (forall key :: IsRequired(schema, key) <==> key == "a") && Get(schema, "enum").None?
  }

  ghost predicate ListsOf(schema: Value, item: Value) {
    && Branches(schema).None? && TypeName(schema) == Some("array") && Get(schema, "items") == Some(item)
    && Properties(schema).None? && Get(schema, "enum").None?
  }

  ghost predicate DefaultsA(schema: Value) {
    && Branches(schema).None? && TypeName(schema).None? && Get(schema, "enum").None?
    && Properties(schema) == Some(map["a" := Object(map["default" := Null])])
  }

  lemma {:induction false} ItemVerdicts(parse: Parser, item: Value, fields: map<string, Value>)
    requires DemandsA(item)
    ensures Repair(parse, item, Object(fields), false) == if "a" in fields then Accepted(Object(fields), false) else Rejected
  {
    var v := Object(fields);
    assert Prepared(parse, item, v) == v && !PreparationRepairs(parse, item, v);
    assert IsRequired(item, "a");
    if "a" in fields {
      RestingFieldsUnchanged(parse, item, fields);
    } else {
      assert CheckedFields(parse, item, fields).Rejected?;
    }
  }

  lemma {:induction false} ListVerdict(parse: Parser, list: Value, item: Value, v: Value)
    requires ListsOf(list, item) && v.Object? && Unwrap(v.fields) == Array([v])
    requires Repair(parse, item, v, false) in {Rejected, Accepted(v, false)}
    ensures Repair(parse, list, v, true)
         == if Repair(parse, item, v, false).Accepted? then Accepted(Array([v]), true) else Rejected
  {
    var elements := [v];
    assert Prepared(parse, list, v) == Array(elements) && PreparationRepairs(parse, list, v);
    assert ElementOutcome(parse, list, elements[0]) == Repair(parse, item, v, false);
    if Repair(parse, item, v, false).Accepted? {
      assert CheckedElements(parse, list, elements).value.elements == elements;
    } else {
      assert CheckedElements(parse, list, elements).Rejected?;
    }
  }

  lemma {:induction false} DefaultsFillEmpty(parse: Parser, schema: Value)
    requires DefaultsA(schema)
    ensures Repair(parse, schema, Object(map[]), true) == Accepted(Object(map["a" := Null]), true)
  {
    assert MissesDefault(schema, map[], "a");
    assert Filled(schema, map[]) == map["a" := Null];
  }

  lemma {:induction false} SecondBranchThenFirst(parse: Parser, schema: Value, first: Value, second: Value, v: Value)
    requires Branches(schema) == Some([first, second])
    ensures forall w :: Repair(parse, first, w, true).Accepted? ==> Repair(parse, schema, w, true) == Repair(parse, first, w, true)
    ensures Repair(parse, first, v, true).Rejected? ==> Repair(parse, schema, v, true) == Repair(parse, second, v, true)
  {
    if Repair(parse, first, v, true).Rejected? {
      assert Branches(schema).value[1] == second;
      assert FirstBranch(parse, schema, v, true, 1) == if Repair(parse, second, v, true).Accepted? then Repair(parse, second, v, true) else Rejected;
    }
  }

  lemma {:induction false} BreakingSchema() returns (schema: Value, list: Value, item: Value, defaults: Value)
    ensures Branches(schema) == Some([list, defaults])
    ensures ListsOf(list, item) && DemandsA(item) && DefaultsA(defaults)
  {
    item := Object(map["type" := Str("object"), "required" := Array([Str("a")])]);
    list := Object(map["type" := Str("array"), "items" := item]);
    defaults := Object(map["properties" := Object(map["a" := Object(map["default" := Null])])]);
    schema := Object(map["anyOf" := Array([list, defaults])]);
  }

  /** Unions do break idempotence. Under `anyOf: [array of objects with a, object with a default a]`
      the empty object is filled to `{a: null}`; validated again, the array branch that refused the
      input accepts that output and wraps it. */
  lemma {:induction false} UnionRevalidationDiffers(parse: Parser) returns (schema: Value)
    ensures !UnionFree(schema)
    ensures var once := Object(map["a" := Null]);
            && Repair(parse, schema, Object(map[]), true) == Accepted(once, true)
            && Repair(parse, schema, once, true) == Accepted(Array([once]), true)
  {
    var list, item, defaults;
    schema, list, item, defaults := BreakingSchema();
    var empty, once := Object(map[]), Object(map["a" := Null]);
    ItemVerdicts(parse, item, empty.fields);
    ItemVerdicts(parse, item, once.fields);
    ListVerdict(parse, list, item, empty);
    ListVerdict(parse, list, item, once);
    DefaultsFillEmpty(parse, defaults);
    SecondBranchThenFirst(parse, schema, list, defaults, empty);
  }
}
