/** The validator as the source runs it: one value rewritten step by step, keys visited one after
    another in no particular order, and a flag raised along the way. Each method is proved to
    compute the order-free `Repair`. */
module InPlaceValidation {
  import opened Wrappers
  import opened Json
  import opened ArgumentSchema
  import opened ArgumentValidator
  import opened ArgumentConformance

  ghost predicate Agrees(ok: bool, value: Value, repaired: bool, outcome: Outcome) {
    if ok then outcome == Accepted(value, repaired) else outcome.Rejected?
  }

  /** The entry point: the arguments of a tool call against its parameter schema. */
  method ValidateToolArguments(parse: Parser, schema: Value, args: Value) returns (ok: bool, value: Value, repaired: bool)
    ensures Agrees(ok, value, repaired, Repair(parse, schema, args, true))
    ensures ok ==> Conforms(schema, value, true) && (repaired <==> value != args)
  {
    ok, value, repaired := ValidateValue(parse, schema, args, true);
    if ok {
      RepairedConforms(parse, schema, args, true);
      RepairFlagExact(parse, schema, args, true);
    }
  }

  method ValidateValue(parse: Parser, schema: Value, input: Value, isRoot: bool) returns (ok: bool, value: Value, repaired: bool)
    ensures Agrees(ok, value, repaired, Repair(parse, schema, input, isRoot))
    decreases schema, 3
  {
    if Branches(schema).Some? {
      ok, value, repaired := TryBranches(parse, schema, input, isRoot);
    } else {
      var prepared := false;
      value, prepared := Prepare(parse, schema, input);
      ok, value, repaired := ValidateShape(parse, schema, value, isRoot);
      ok, repaired := ok && EnumAllows(schema, value), prepared || repaired;
    }
  }

  /** The union rule: each branch works on its own copy of the value, and the first success is kept. */
  method TryBranches(parse: Parser, schema: Value, input: Value, isRoot: bool) returns (ok: bool, value: Value, repaired: bool)
    requires Branches(schema).Some?
    ensures Agrees(ok, value, repaired, FirstBranch(parse, schema, input, isRoot, 0))
    decreases schema, 1
  {
    var branches := Branches(schema).value;
    for i := 0 to |branches|
      invariant FirstBranch(parse, schema, input, isRoot, 0) == FirstBranch(parse, schema, input, isRoot, i)
    {
      ok, value, repaired := ValidateValue(parse, branches[i], input, isRoot);
      if ok {
        return;
      }
    }
    return false, input, false;
  }

  /** Steps 1 and 2: cast, then inject defaults. */
  method Prepare(parse: Parser, schema: Value, input: Value) returns (value: Value, repaired: bool)
    ensures value == Prepared(parse, schema, input)
    ensures repaired == PreparationRepairs(parse, schema, input)
  {
    value, repaired := input, false;
    var cast := CastTo(parse, schema, value);
    if cast.Some? {
      value, repaired := cast.value, true;
    }
    if value.Object? {
      var fields, filled := InjectDefaults(schema, value.fields);
      value, repaired := Object(fields), repaired || filled;
    }
  }

  /** The defaults of the keys in `done` added to the object. */
  ghost function FilledFrom(schema: Value, input: map<string, Value>, done: set<string>): map<string, Value> {
    input + map key | key in done && MissesDefault(schema, input, key) :: DefaultFor(schema, key).value
  }

  lemma {:induction false} FillStep(schema: Value, input: map<string, Value>, done: set<string>, key: string)
    requires key !in done
    ensures FilledFrom(schema, input, done + {key}) ==
            if MissesDefault(schema, input, key)
            then FilledFrom(schema, input, done)[key := DefaultFor(schema, key).value]
            else FilledFrom(schema, input, done)
  {
    var was, now := FilledFrom(schema, input, done), FilledFrom(schema, input, done + {key});
    assert now.Keys == if MissesDefault(schema, input, key) then was.Keys + {key} else was.Keys;
  }

  method InjectDefaults(schema: Value, input: map<string, Value>) returns (fields: map<string, Value>, repaired: bool)
    ensures fields == Filled(schema, input)
    ensures repaired <==> exists key :: MissesDefault(schema, input, key)
  {
    fields, repaired := input, false;
    if Properties(schema).Some? {
      var props := Properties(schema).value;
      var todo := props.Keys;
      ghost var done: set<string> := {};
      assert fields == FilledFrom(schema, input, done);
      while todo != {}
        invariant todo + done == props.Keys && todo !! done
        invariant fields == FilledFrom(schema, input, done)
        invariant repaired <==> exists key | key in done :: MissesDefault(schema, input, key)
      {
        var key :| key in todo;
        FillStep(schema, input, done, key);
        if key !in fields && Get(props[key], "default").Some? {
          assert MissesDefault(schema, input, key);
          fields, repaired := fields[key := Get(props[key], "default").value], true;
        }
        todo, done := todo - {key}, done + {key};
      }
      assert done == props.Keys;
      assert forall key | MissesDefault(schema, input, key) :: key in done;
      assert FilledFrom(schema, input, done) == Filled(schema, input);
    }
  }

  /** Step 3 up to the enum test. */
  method ValidateShape(parse: Parser, schema: Value, input: Value, isRoot: bool) returns (ok: bool, value: Value, repaired: bool)
    ensures Agrees(ok, value, repaired, Checked(parse, schema, input, isRoot))
    decreases schema, 2
  {
    ok, value, repaired := true, input, false;
    if TypeName(schema).None? {
      ok := !isRoot || value.Object?;
    } else {
      var t := TypeName(schema).value;
      if t == "object" {
        ok := value.Object?;
        if ok {
          var fields;
          ok, fields, repaired := ValidateFields(parse, schema, value.fields);
          value := Object(fields);
        }
      } else if t == "array" {
        ok := value.Array?;
        if ok {
          var elements;
          ok, elements, repaired := ValidateElements(parse, schema, value.elements);
          value := Array(elements);
        }
      } else {
        ok := TypeAccepts(t, value);
      }
    }
  }

  // ---------------------------------------------------------------- objects

  ghost predicate AllAccepted(parse: Parser, schema: Value, input: map<string, Value>, done: set<string>) {
    done <= input.Keys && forall key | key in done :: FieldOutcome(parse, schema, key, input[key]).Accepted?
  }

  /** The object after the keys of `done` have been handled. */
  ghost function Progress(parse: Parser, schema: Value, input: map<string, Value>, done: set<string>): map<string, Value>
    requires AllAccepted(parse, schema, input, done)
  {
    map key | key in input && !(key in done && SlotOf(schema, key).Trimmed?) ::
      if key in done then FieldOutcome(parse, schema, key, input[key]).value else input[key]
  }

  /** Whether handling the keys of `done` raised the flag. */
  ghost predicate RepairsAny(parse: Parser, schema: Value, input: map<string, Value>, done: set<string>)
    requires AllAccepted(parse, schema, input, done)
  {
    exists key | key in done :: SlotOf(schema, key).Trimmed? || FieldOutcome(parse, schema, key, input[key]).repaired
  }

  lemma {:induction false} ProgressStep(parse: Parser, schema: Value, input: map<string, Value>, done: set<string>, key: string)
    requires AllAccepted(parse, schema, input, done) && key in input && key !in done
    requires FieldOutcome(parse, schema, key, input[key]).Accepted?
    ensures AllAccepted(parse, schema, input, done + {key})
    ensures var was := Progress(parse, schema, input, done);
            Progress(parse, schema, input, done + {key}) ==
            if SlotOf(schema, key).Trimmed? then was - {key}
            else was[key := FieldOutcome(parse, schema, key, input[key]).value]
    ensures RepairsAny(parse, schema, input, done + {key}) <==>
            RepairsAny(parse, schema, input, done) || SlotOf(schema, key).Trimmed? || FieldOutcome(parse, schema, key, input[key]).repaired
  {
    var was, now := Progress(parse, schema, input, done), Progress(parse, schema, input, done + {key});
    assert now.Keys == if SlotOf(schema, key).Trimmed? then was.Keys - {key} else was.Keys + {key};
    assert key in done + {key};
  }

  lemma {:induction false} FreeKeysUntouched(parse: Parser, schema: Value, input: map<string, Value>)
    requires Properties(schema).None?
    ensures AllAccepted(parse, schema, input, input.Keys)
    ensures Progress(parse, schema, input, input.Keys) == input && !RepairsAny(parse, schema, input, input.Keys)
  {
  }

  lemma {:induction false} AllKeysHandled(parse: Parser, schema: Value, input: map<string, Value>)
    requires AllAccepted(parse, schema, input, input.Keys)
    requires forall key | IsRequired(schema, key) :: key in input && !SlotOf(schema, key).Trimmed?
    ensures CheckedFields(parse, schema, input)
         == Accepted(Object(Progress(parse, schema, input, input.Keys)), RepairsAny(parse, schema, input, input.Keys))
  {
    var out := CheckedFields(parse, schema, input);
    assert out.Accepted? && out.value.fields == Progress(parse, schema, input, input.Keys);
  }

  /** The object rule: extra keys first, then the required test, then the declared properties. */
  method ValidateFields(parse: Parser, schema: Value, input: map<string, Value>) returns (ok: bool, fields: map<string, Value>, repaired: bool)
    ensures Agrees(ok, Object(fields), repaired, CheckedFields(parse, schema, input))
    decreases schema, 1
  {
    if Properties(schema).None? {
      FreeKeysUntouched(parse, schema, input);
      fields, repaired := input, false;
      ok := HoldsRequired(schema, fields);
    } else {
      var declared := Properties(schema).value.Keys;
      assert input == Progress(parse, schema, input, {});
      ok, fields, repaired := HandleKeys(parse, schema, input, input, false, input.Keys - declared, {});
      if ok {
        assert {} + (input.Keys - declared) == input.Keys - declared;
        assert fields.Keys == set key | key in input && !SlotOf(schema, key).Trimmed?;
        ok := HoldsRequired(schema, fields);
      }
      if ok {
        ok, fields, repaired := HandleKeys(parse, schema, input, fields, repaired, input.Keys * declared, input.Keys - declared);
        assert (input.Keys - declared) + (input.Keys * declared) == input.Keys;
      }
    }
    if ok {
      AllKeysHandled(parse, schema, input);
    }
  }

  /** One sweep over `keys`: keep, check or trim each. */
  method HandleKeys(parse: Parser, schema: Value, input: map<string, Value>, current: map<string, Value>, flag: bool, keys: set<string>, ghost before: set<string>)
    returns (ok: bool, fields: map<string, Value>, repaired: bool)
    requires AllAccepted(parse, schema, input, before) && keys <= input.Keys && keys !! before
    requires current == Progress(parse, schema, input, before) && flag == RepairsAny(parse, schema, input, before)
    ensures ok <==> AllAccepted(parse, schema, input, before + keys)
    ensures ok ==> fields == Progress(parse, schema, input, before + keys) && repaired == RepairsAny(parse, schema, input, before + keys)
    decreases schema, 0
  {
    fields, repaired := current, flag;
    var todo := keys;
    ghost var done := before;
    while todo != {}
      invariant todo <= keys && done == before + (keys - todo)
      invariant AllAccepted(parse, schema, input, done)
      invariant fields == Progress(parse, schema, input, done)
      invariant repaired == RepairsAny(parse, schema, input, done)
    {
      var key :| key in todo;
      match SlotOf(schema, key) {
        case Free =>
          ProgressStep(parse, schema, input, done, key);
        case Under(sub) =>
          var childOk, child, childRepaired := ValidateValue(parse, sub, fields[key], false);
          if !childOk {
            assert key in before + keys && FieldOutcome(parse, schema, key, input[key]).Rejected?;
            return false, fields, repaired;
          }
          ProgressStep(parse, schema, input, done, key);
          fields, repaired := fields[key := child], repaired || childRepaired;
        case Trimmed =>
          ProgressStep(parse, schema, input, done, key);
          fields, repaired := fields - {key}, true;
      }
      todo, done := todo - {key}, done + {key};
    }
    assert done == before + keys;
    ok := true;
  }

  method HoldsRequired(schema: Value, fields: map<string, Value>) returns (ok: bool)
    ensures ok <==> forall key | IsRequired(schema, key) :: key in fields
  {
    ok := true;
    if Get(schema, "required").Some? && Get(schema, "required").value.Array? {
      var required := Get(schema, "required").value.elements;
      for i := 0 to |required|
        invariant forall j | 0 <= j < i :: required[j].Str? ==> required[j].s in fields
      {
        if required[i].Str? && required[i].s !in fields {
          assert IsRequired(schema, required[i].s);
          return false;
        }
      }
    }
  }

  // ---------------------------------------------------------------- arrays

  /** The array rule: elements in order, each rewritten where it stands. */
  method ValidateElements(parse: Parser, schema: Value, input: seq<Value>) returns (ok: bool, elements: seq<Value>, repaired: bool)
    ensures Agrees(ok, Array(elements), repaired, CheckedElements(parse, schema, input))
    decreases schema, 0
  {
    elements, repaired := input, false;
    if Get(schema, "items").Some? {
      var items := Get(schema, "items").value;
      for i := 0 to |input|
        invariant |elements| == |input|
        invariant forall j | i <= j < |input| :: elements[j] == input[j]
        invariant forall j | 0 <= j < i :: ElementOutcome(parse, schema, input[j]).Accepted?
        invariant forall j | 0 <= j < i :: elements[j] == ElementOutcome(parse, schema, input[j]).value
        invariant repaired <==> exists j | 0 <= j < i :: ElementOutcome(parse, schema, input[j]).repaired
      {
        var childOk, child, childRepaired := ValidateValue(parse, items, elements[i], false);
        if !childOk {
          assert ElementOutcome(parse, schema, input[i]).Rejected?;
          return false, elements, repaired;
        }
        elements, repaired := elements[i := child], repaired || childRepaired;
      }
    }
    ok := true;
    assert forall i | 0 <= i < |input| :: ElementOutcome(parse, schema, input[i]).Accepted?;
    var out := CheckedElements(parse, schema, input);
    assert out.Accepted? && out.value.elements == elements;
  }
}
