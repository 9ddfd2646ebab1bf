/** The in-memory `rules` list and the three requests that use it: creating
    a rule appends it, combining and evaluating read the whole list. */
module Store {
  import opened Wrappers
  import opened Values
  import opened Ast
  import opened Evaluator
  import opened Rules
  import opened Combinator

  /** A tree `create_rule` can return for some rule string. */
  ghost predicate IsRuleTree(t: Node)
  {
    exists s :: Recognised(s) && CreateRule(s) == Some(t)
  }

  class RuleStore {
    var rules: seq<Node>

    /** Only trees that `create_rule` produced are ever stored. */
    ghost predicate Valid()
      reads this
    {
      forall i :: 0 <= i < |rules| ==> IsRuleTree(rules[i])
    }

    constructor ()
      ensures Valid() && rules == []
    {
      rules := [];
    }

    /** The create request: the list grows by exactly the new tree when the
        string is recognised and is unchanged otherwise. */
    method Add(ruleString: string) returns (ok: bool)
      requires Valid()
      modifies this
      ensures Valid()
      ensures ok <==> Recognised(ruleString)
      ensures ok ==> rules == old(rules) + [CreateRule(ruleString).value]
      ensures !ok ==> rules == old(rules)
    {
      var ast := CreateRule(ruleString);
      if ast.Some? {
        assert IsRuleTree(ast.value);
        rules := rules + [ast.value];
        ok := true;
      } else {
        ok := false;
      }
    }

    /** The combine request: fails on an empty list; otherwise its tree's
        left spine holds one `'AND'` node per stored rule after the first and
        gives back the stored rules in order. */
    method Combine() returns (r: Result<Node>)
      ensures rules == [] ==> r == Failure(IndexError)
      ensures rules != [] ==> r == Success(Chain(rules)) && Spine(r.value, |rules| - 1) == Some(rules)
    {
      r := CombineRules(rules);
      if rules != [] {
        ChainSpine(rules);
      }
    }

    /** The evaluate request: combines the stored rules and evaluates the
        result, so it holds exactly when every stored rule holds, and fails
        with the first error among the rules in the order they were added. */
    method EvaluateCombined(data: map<string, Value>) returns (r: Result<bool>)
      ensures rules == [] ==> r == Failure(IndexError)
      ensures rules != [] ==> r == AllHold(rules, data)
      ensures Valid() && r.Failure? ==> !r.error.SyntaxError?
    {
      var combined := CombineRules(rules);
      match combined
      case Failure(e) =>
        r := Failure(e);
      case Success(t) =>
        r := Evaluate(t, data);
        ChainEvaluates(rules, data);
        if Valid() {
          StoredRulesRaiseNoSyntaxError(rules, data);
        }
    }
  }

  /** Trees from the lookup table only ever fail on the data (NameError or
      TypeError), never on their own text. */
  lemma StoredRulesRaiseNoSyntaxError(rules: seq<Node>, data: map<string, Value>)
    requires forall i :: 0 <= i < |rules| ==> IsRuleTree(rules[i])
    ensures AllHold(rules, data).Failure? ==> !AllHold(rules, data).error.SyntaxError?
  {
    if AllHold(rules, data).Failure? {
      var i :| 0 <= i < |rules| && AllHold(rules, data) == Evaluate(rules[i], data);
      var s :| Recognised(s) && CreateRule(s) == Some(rules[i]);
      NoSyntaxErrorFromComparators(rules[i], data);
    }
  }

  /** Had the store kept the trees as `create_rule` writes them, one of the
      two AND-named rules anywhere in it would make every evaluate request
      fail, whatever the data. */
  lemma AsWrittenStoreNeverEvaluates(rules: seq<Node>, data: map<string, Value>, i: nat)
    requires i < |rules|
    requires rules[i] == CreateRuleAsWritten(AgeSalesRule).value ||
             rules[i] == CreateRuleAsWritten(AgeMarketingRule).value
    ensures AllHold(rules, data).Failure?
    ensures Evaluate(Chain(rules), data).Failure?
  {
    if rules[i] == CreateRuleAsWritten(AgeSalesRule).value {
      AsWrittenAndRulesNeverEvaluate(AgeSalesRule, data);
    } else {
      AsWrittenAndRulesNeverEvaluate(AgeMarketingRule, data);
    }
    ChainEvaluates(rules, data);
  }
}
