/** When validating twice is validating once under a union, in terms of editing and conformance alone:
    the repairer is not consulted, so a caller can tell beforehand. The union's branches are
    union-free here; the union itself may stand anywhere in a schema. */
module UnionRevalidation {
  import opened Wrappers
  import opened Json
  import opened ArgumentSchema
  import opened ArgumentValidator
  import opened ArgumentConformance
  import opened RepairRetraction
  import opened RepairFactors

  /** A union of union-free branches. */
  ghost predicate FlatUnion(schema: Value) {
    Branches(schema).Some? && forall i | 0 <= i < |Branches(schema).value| :: UnionFree(Branches(schema).value[i])
  }

  /** A value fits a branch when its edited form conforms. */
  ghost predicate Fits(parse: Parser, branch: Value, v: Value, isRoot: bool) {
    Conforms(branch, Edit(parse, branch, v), isRoot)
  }

  ghost predicate FirstFit(parse: Parser, schema: Value, v: Value, isRoot: bool, k: nat)
    requires Branches(schema).Some?
  {
    var branches := Branches(schema).value;
    k < |branches| && Fits(parse, branches[k], v, isRoot) && forall j | 0 <= j < k :: !Fits(parse, branches[j], v, isRoot)
  }

  /** The branch that answers is the first one the value fits. */
  lemma {:induction false} FirstFitAnswers(parse: Parser, schema: Value, v: Value, isRoot: bool, k: nat)
    requires FlatUnion(schema)
    ensures FirstFit(parse, schema, v, isRoot, k) <==> Answers(parse, schema, v, isRoot, k)
    ensures k < |Branches(schema).value| && FirstFit(parse, schema, v, isRoot, k) ==>
              Repair(parse, Branches(schema).value[k], v, isRoot).value == Edit(parse, Branches(schema).value[k], v)
  {
    var branches := Branches(schema).value;
    forall j | 0 <= j < |branches|
      ensures Repair(parse, branches[j], v, isRoot)
           == if Fits(parse, branches[j], v, isRoot) then Accepted(Edit(parse, branches[j], v), Edit(parse, branches[j], v) != v) else Rejected
    {
      RepairIsEditThenCheck(parse, branches[j], v, isRoot);
    }
  }

  /** A union validates by its first fitting branch: verdict, value and flag. */
  lemma {:induction false} UnionIsFirstFit(parse: Parser, schema: Value, v: Value, isRoot: bool)
    requires FlatUnion(schema)
    ensures forall k: nat | FirstFit(parse, schema, v, isRoot, k) ::
              var w := Edit(parse, Branches(schema).value[k], v);
              Repair(parse, schema, v, isRoot) == Accepted(w, w != v)
    ensures Repair(parse, schema, v, isRoot).Rejected? <==> forall k: nat :: !FirstFit(parse, schema, v, isRoot, k)
  {
    forall k: nat | FirstFit(parse, schema, v, isRoot, k)
      ensures var w := Edit(parse, Branches(schema).value[k], v);
              Repair(parse, schema, v, isRoot) == Accepted(w, w != v)
    {
      FirstFitAnswers(parse, schema, v, isRoot, k);
      AnswerIs(parse, schema, v, isRoot, k);
      RepairIsEditThenCheck(parse, Branches(schema).value[k], v, isRoot);
    }
    if Repair(parse, schema, v, isRoot).Accepted? {
      var k := SomeoneAnswers(parse, schema, v, isRoot);
      FirstFitAnswers(parse, schema, v, isRoot, k);
    }
  }

  /** The branch that answered for an input fits its own output and has nothing to edit there. */
  lemma {:induction false} OwnOutputFits(parse: Parser, branch: Value, v: Value, isRoot: bool)
    requires UnionFree(branch) && Fits(parse, branch, v, isRoot)
    ensures var w := Edit(parse, branch, v);
            Fits(parse, branch, w, isRoot) && Edit(parse, branch, w) == w
  {
    var w := Edit(parse, branch, v);
    RepairIsEditThenCheck(parse, branch, v, isRoot);
    ValidatingTwice(parse, branch, v, isRoot);
    RepairIsEditThenCheck(parse, branch, w, isRoot);
  }

  lemma {:induction false} FirstFitUpTo(parse: Parser, schema: Value, v: Value, isRoot: bool, k: nat) returns (j: nat)
    requires Branches(schema).Some? && k < |Branches(schema).value| && Fits(parse, Branches(schema).value[k], v, isRoot)
    ensures j <= k && FirstFit(parse, schema, v, isRoot, j)
    decreases k
  {
    if i: nat :| i < k && Fits(parse, Branches(schema).value[i], v, isRoot) {
      j := FirstFitUpTo(parse, schema, v, isRoot, i);
    } else {
      j := k;
    }
  }

  /** No earlier branch, having refused the input, both fits the output of branch `k` and edits it. */
  ghost predicate NotRewritten(parse: Parser, schema: Value, w: Value, isRoot: bool, k: nat)
    requires Branches(schema).Some? && k <= |Branches(schema).value|
  {
    forall j: nat | j < k && FirstFit(parse, schema, w, isRoot, j) :: Edit(parse, Branches(schema).value[j], w) == w
  }

  /** Validating twice equals validating once if and only if no earlier branch rewrites the output of
      the first branch the input fits. */
  lemma {:induction false} UnionValidatingTwice(parse: Parser, schema: Value, v: Value, isRoot: bool, k: nat)
    requires FlatUnion(schema) && FirstFit(parse, schema, v, isRoot, k)
    ensures var w := Edit(parse, Branches(schema).value[k], v);
            && Repair(parse, schema, v, isRoot) == Accepted(w, w != v)
            && (Repair(parse, schema, w, isRoot) == Accepted(w, false) <==> NotRewritten(parse, schema, w, isRoot, k))
  {
    var branches := Branches(schema).value;
    var w := Edit(parse, branches[k], v);
    UnionIsFirstFit(parse, schema, v, isRoot);
    UnionIsFirstFit(parse, schema, w, isRoot);
    OwnOutputFits(parse, branches[k], v, isRoot);
    var j := FirstFitUpTo(parse, schema, w, isRoot, k);
    assert forall i: nat | FirstFit(parse, schema, w, isRoot, i) :: i == j;
  }

  /** The same at a union anywhere in a schema: this is what settling asks there. */
  lemma {:induction false} UnionSettles(parse: Parser, schema: Value, v: Value, isRoot: bool, k: nat)
    requires FlatUnion(schema) && FirstFit(parse, schema, v, isRoot, k)
    ensures Settles(parse, schema, v, isRoot) <==> NotRewritten(parse, schema, Edit(parse, Branches(schema).value[k], v), isRoot, k)
  {
    UnionValidatingTwice(parse, schema, v, isRoot, k);
    ValidatingTwice(parse, schema, v, isRoot);
  }
}
