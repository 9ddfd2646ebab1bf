/** `create_rule`: a closed lookup from three recognised rule strings to
    fixed two-leaf trees. */
module Rules {
  import opened Wrappers
  import opened Values
  import opened Ast
  import opened Evaluator

  const AgeSalesRule: string := "age > 30 AND department = 'Sales'"
  const AgeMarketingRule: string := "age < 25 AND department = 'Marketing'"
  const SalaryExperienceRule: string := "salary > 50000 OR experience > 5"

  predicate Recognised(s: string)
  {
    s == AgeSalesRule || s == AgeMarketingRule || s == SalaryExperienceRule
  }

  /** The lookup table, with the token of the department comparison as a
      parameter. The two rules named with AND build an operator node that
      carries no value; only the OR rule's node carries `'OR'`. */
  function BuildRule(s: string, departmentOp: string): (r: Option<Node>)
    ensures r.None? <==> !Recognised(s)
    ensures r.Some? ==> r.value.Operator? && r.value.left.Operand? && r.value.right.Operand?
    ensures r.Some? ==> (r.value.value == Some("OR") <==> s == SalaryExperienceRule)
    ensures r.Some? ==> (r.value.value.None? <==> s != SalaryExperienceRule)
    ensures r.Some? && s != SalaryExperienceRule ==>
      r.value.right.cond.field == "department" && r.value.right.cond.op == departmentOp
  {
    if s == AgeSalesRule then
      Some(Operator(None, Operand(Condition("age", ">", Int(30))),
                          Operand(Condition("department", departmentOp, Str("Sales")))))
    else if s == AgeMarketingRule then
      Some(Operator(None, Operand(Condition("age", "<", Int(25))),
                          Operand(Condition("department", departmentOp, Str("Marketing")))))
    else if s == SalaryExperienceRule then
      Some(Operator(Some("OR"), Operand(Condition("salary", ">", Int(50000))),
                                Operand(Condition("experience", ">", Int(5)))))
    else None
  }

  /** `create_rule` as written: the department conditions use `=`, which is
      not a comparison, so their leaves carry a token outside the table. */
  function CreateRuleAsWritten(s: string): (r: Option<Node>)
    ensures r.None? <==> !Recognised(s)
    ensures r.Some? ==> r.value.Operator? && r.value.left.Operand? && r.value.right.Operand?
    ensures r.Some? && s != SalaryExperienceRule ==>
      r.value.value.None? && ParseComparator(r.value.right.cond.op).None?
  {
    BuildRule(s, "=")
  }

  /** `create_rule` with the department conditions written as the equality
      `==` they evidently mean. Every string other than the three rules gives
      None; each rule is an operator node over two operand leaves whose
      tokens are all in the comparator table. */
  function CreateRule(s: string): (r: Option<Node>)
    ensures r.None? <==> !Recognised(s)
    ensures r.Some? ==> r.value.Operator? && r.value.left.Operand? && r.value.right.Operand?
    ensures r.Some? ==> (r.value.value == Some("OR") <==> s == SalaryExperienceRule)
    ensures r.Some? ==> (r.value.value.None? <==> s != SalaryExperienceRule)
    ensures r.Some? ==> forall i :: 0 <= i < |Leaves(r.value)| ==> ParseComparator(Leaves(r.value)[i].op).Some?
  {
    var r := BuildRule(s, "==");
    assert r.Some? ==> Leaves(r.value) == [r.value.left.cond, r.value.right.cond];
    r
  }

  /** Because no rule's operator carries `'AND'`, every rule evaluates as the
      disjunction of its two conditions, the two named with AND included. */
  lemma CreatedRuleIsDisjunction(s: string, data: map<string, Value>)
    requires Recognised(s)
    ensures Evaluate(CreateRule(s).value, data).Success? <==>
      EvalCondition(CreateRule(s).value.left.cond, data).Success? &&
      EvalCondition(CreateRule(s).value.right.cond, data).Success?
    ensures Evaluate(CreateRule(s).value, data).Success? ==>
      Evaluate(CreateRule(s).value, data).value ==
        (EvalCondition(CreateRule(s).value.left.cond, data).value ||
         EvalCondition(CreateRule(s).value.right.cond, data).value)
  {
  }

  /** As written, the two rules named with AND never evaluate. The age
      condition is evaluated first: when it cannot be decided (no `age`, or
      an `age` that cannot be ordered against a number) its NameError or
      TypeError is the result; otherwise the department condition's `=`
      raises SyntaxError. */
  lemma AsWrittenAndRulesNeverEvaluate(s: string, data: map<string, Value>)
    requires s == AgeSalesRule || s == AgeMarketingRule
    ensures Evaluate(CreateRuleAsWritten(s).value, data).Failure?
    ensures Evaluate(CreateRuleAsWritten(s).value, data) ==
      (if "age" !in data then Failure(NameError("age"))
       else if Numeric(data["age"]).None? then Failure(TypeError(CreateRuleAsWritten(s).value.left.cond.op))
       else Failure(SyntaxError("=")))
  {
    var t := CreateRuleAsWritten(s).value;
    assert EvalCondition(t.right.cond, data) == Failure(SyntaxError("="));
  }

  /** Each as-written tree spells out the string it is stored under: its
      two conditions' texts joined by the connective of the string. This
      pins every field, token and literal of the table to its key. */
  lemma AsWrittenTreesSpellTheirKeys(s: string)
    requires Recognised(s)
    ensures s == ConditionText(CreateRuleAsWritten(s).value.left.cond) +
      (if CreateRuleAsWritten(s).value.value == Some("OR") then " OR " else " AND ") +
      ConditionText(CreateRuleAsWritten(s).value.right.cond)
  {
    if s == AgeSalesRule {
      AgeSalesSpellsKey();
    } else if s == AgeMarketingRule {
      AgeMarketingSpellsKey();
    } else {
      SalaryExperienceSpellsKey();
    }
  }

  lemma AgeSalesSpellsKey()
    ensures AgeSalesRule == ConditionText(CreateRuleAsWritten(AgeSalesRule).value.left.cond) + " AND " +
      ConditionText(CreateRuleAsWritten(AgeSalesRule).value.right.cond)
  {
    var t := CreateRuleAsWritten(AgeSalesRule).value;
    assert t.left.cond == Condition("age", ">", Int(30));
    assert t.right.cond == Condition("department", "=", Str("Sales"));
    AgeSalesLeftText();
    AgeSalesRightText();
    AgeSalesKeyParts();
  }

  lemma AgeSalesLeftText()
    ensures ConditionText(Condition("age", ">", Int(30))) == "age > 30"
  {
  }

  lemma AgeSalesRightText()
    ensures ConditionText(Condition("department", "=", Str("Sales"))) == "department = 'Sales'"
  {
  }

  lemma AgeSalesKeyParts()
    ensures AgeSalesRule == "age > 30" + " AND " + "department = 'Sales'"
  {
  }

  lemma AgeMarketingSpellsKey()
    ensures AgeMarketingRule == ConditionText(CreateRuleAsWritten(AgeMarketingRule).value.left.cond) + " AND " +
      ConditionText(CreateRuleAsWritten(AgeMarketingRule).value.right.cond)
  {
    var t := CreateRuleAsWritten(AgeMarketingRule).value;
    assert t.left.cond == Condition("age", "<", Int(25));
    assert t.right.cond == Condition("department", "=", Str("Marketing"));
    AgeMarketingLeftText();
    AgeMarketingRightText();
    AgeMarketingKeyParts();
  }

  lemma AgeMarketingLeftText()
    ensures ConditionText(Condition("age", "<", Int(25))) == "age < 25"
  {
  }

  lemma AgeMarketingRightText()
    ensures ConditionText(Condition("department", "=", Str("Marketing"))) == "department = 'Marketing'"
  {
  }

  lemma AgeMarketingKeyParts()
    ensures AgeMarketingRule == "age < 25" + " AND " + "department = 'Marketing'"
  {
  }

  lemma SalaryExperienceSpellsKey()
    ensures SalaryExperienceRule == ConditionText(CreateRuleAsWritten(SalaryExperienceRule).value.left.cond) + " OR " +
      ConditionText(CreateRuleAsWritten(SalaryExperienceRule).value.right.cond)
  {
    var t := CreateRuleAsWritten(SalaryExperienceRule).value;
    assert t.left.cond == Condition("salary", ">", Int(50000));
    assert t.right.cond == Condition("experience", ">", Int(5));
    SalaryExperienceLeftText();
    SalaryExperienceRightText();
    SalaryExperienceKeyParts();
  }

  lemma SalaryExperienceLeftText()
    ensures ConditionText(Condition("salary", ">", Int(50000))) == "salary > 50000"
  {
  }

  lemma SalaryExperienceRightText()
    ensures ConditionText(Condition("experience", ">", Int(5))) == "experience > 5"
  {
  }

  lemma SalaryExperienceKeyParts()
    ensures SalaryExperienceRule == "salary > 50000" + " OR " + "experience > 5"
  {
  }

  /** The corrected table differs from the table as written in exactly one
      place: the `=` of the department condition becomes `==`. */
  lemma CorrectionChangesOnlyAssignment(s: string)
    requires Recognised(s)
    ensures CreateRule(s).value.value == CreateRuleAsWritten(s).value.value
    ensures CreateRule(s).value.left == CreateRuleAsWritten(s).value.left
    ensures CreateRule(s).value.right.cond.field == CreateRuleAsWritten(s).value.right.cond.field
    ensures CreateRule(s).value.right.cond.literal == CreateRuleAsWritten(s).value.right.cond.literal
    ensures CreateRule(s).value.right.cond.op ==
      (if CreateRuleAsWritten(s).value.right.cond.op == "=" then "==" else CreateRuleAsWritten(s).value.right.cond.op)
  {
  }

  /** With `==`, the same two rules evaluate on any record that binds `age`
      to a number and binds `department`. */
  lemma CorrectedAndRulesEvaluate(s: string, data: map<string, Value>)
    requires s == AgeSalesRule || s == AgeMarketingRule
    requires "age" in data && Numeric(data["age"]).Some? && "department" in data
    ensures Evaluate(CreateRule(s).value, data).Success?
  {
    var t := CreateRule(s).value;
    assert Leaves(t) == [t.left.cond, t.right.cond];
    WellTypedEvaluates(t, data);
  }

  /** Worked cases of the rule named "age > 30 AND department = 'Sales'".
      The second shows the disjunction: a record that fails the age test
      still satisfies the rule. */
  lemma AgeSalesExamples()
    ensures Evaluate(CreateRule(AgeSalesRule).value,
                     map["age" := Int(35), "department" := Str("Sales")]) == Success(true)
    ensures Evaluate(CreateRule(AgeSalesRule).value,
                     map["age" := Int(20), "department" := Str("Sales")]) == Success(true)
    ensures Evaluate(CreateRule(AgeSalesRule).value,
                     map["age" := Int(20), "department" := Str("Marketing")]) == Success(false)
  {
  }

  /** Worked case of the OR rule: the experience test alone satisfies it. */
  lemma SalaryExperienceExample()
    ensures Evaluate(CreateRule(SalaryExperienceRule).value,
                     map["salary" := Int(10000), "experience" := Int(7)]) == Success(true)
  {
  }

  /** Worked case of an unbound field: NameError, not false. */
  lemma MissingFieldExample()
    ensures Evaluate(CreateRule(AgeSalesRule).value, map["age" := Int(35)]) ==
      Failure(NameError("department"))
  {
  }

  /** Worked case of an ordering between a string and a number: TypeError. */
  lemma TypeMismatchExample()
    ensures Evaluate(CreateRule(AgeMarketingRule).value,
                     map["age" := Str("young"), "department" := Str("Marketing")]) == Failure(TypeError("<"))
  {
  }

  /** Records against the rule as written: where the age condition is
      decided, the department condition's `=` raises SyntaxError, so an
      unbound department is never reported; a record without `age` fails on
      the age condition first. */
  lemma AsWrittenExamples()
    ensures Evaluate(CreateRuleAsWritten(AgeSalesRule).value,
                     map["age" := Int(20), "department" := Str("Sales")]) == Failure(SyntaxError("="))
    ensures Evaluate(CreateRuleAsWritten(AgeSalesRule).value, map["age" := Int(35)]) ==
      Failure(SyntaxError("="))
    ensures Evaluate(CreateRuleAsWritten(AgeSalesRule).value, map["department" := Str("Sales")]) ==
      Failure(NameError("age"))
  {
  }
}
