/** `evaluate_rule`: post-order evaluation of a rule tree against a data
    record, with every condition decided by the closed comparator table. */
module Evaluator {
  import opened Wrappers
  import opened Values
  import opened Ast

  /** One condition against the data. The comparator token is checked first
      (a SyntaxError in Python), then the field is looked up (a NameError when
      it is unbound), then the comparison is made (TypeError for an ordering
      of incomparable values). */
  function EvalCondition(c: Condition, data: map<string, Value>): (r: Result<bool>)
    ensures ParseComparator(c.op).None? ==> r == Failure(SyntaxError(c.op))
    ensures ParseComparator(c.op).Some? && c.field !in data ==> r == Failure(NameError(c.field))
    ensures r.Success? <==> WellTyped(c, data)
    ensures ParseComparator(c.op).Some? && c.field in data && !WellTyped(c, data) ==>
      r == Failure(TypeError(c.op))
    ensures WellTyped(c, data) ==> r == Compare(ParseComparator(c.op).value, data[c.field], c.literal)
  {
    match ParseComparator(c.op)
    case None => Failure(SyntaxError(c.op))
    case Some(cmp) =>
      if c.field !in data then Failure(NameError(c.field))
      else Compare(cmp, data[c.field], c.literal)
  }

  /** A condition the data can decide: its token is a comparator, its field is
      bound, and an ordering is only asked of comparable values. */
  predicate WellTyped(c: Condition, data: map<string, Value>)
  {
    && ParseComparator(c.op).Some?
    && c.field in data
    && (ParseComparator(c.op).value in {Eq, Ne} || Order(data[c.field], c.literal).Some?)
  }

  /** Evaluates both children, left first, and only then combines them: the
      node is a conjunction exactly when its value is `'AND'` and a
      disjunction for every other value, including none. */
  function Evaluate(t: Node, data: map<string, Value>): (r: Result<bool>)
    ensures r.Failure? ==> r.error.NameError? || r.error.TypeError? || r.error.SyntaxError?
  {
    match t
    case Operand(c) => EvalCondition(c, data)
    case Operator(v, left, right) =>
      match Evaluate(left, data)
      case Failure(e) => Failure(e)
      case Success(a) =>
        match Evaluate(right, data)
        case Failure(e) => Failure(e)
        case Success(b) => Success(if v == Some(And) then a && b else a || b)
  }

  /** The outcomes of the conditions of `t`, left to right. */
  function ConditionResults(t: Node, data: map<string, Value>): (r: seq<Result<bool>>)
    ensures |r| == |Leaves(t)|
    ensures forall i :: 0 <= i < |r| ==> r[i] == EvalCondition(Leaves(t)[i], data)
  {
    match t
    case Operand(c) => [EvalCondition(c, data)]
    case Operator(_, l, r) =>
      var a, b := ConditionResults(l, data), ConditionResults(r, data);
      assert forall i :: |a| <= i < |a| + |b| ==> Leaves(t)[i] == Leaves(r)[i - |a|];
      a + b
  }

  /** Some condition of `t` evaluates to true. */
  predicate SomeConditionTrue(t: Node, data: map<string, Value>)
  {
    Success(true) in ConditionResults(t, data)
  }

  /** Every condition of `t` evaluates to true. */
  predicate EveryConditionTrue(t: Node, data: map<string, Value>)
  {
    forall x :: x in ConditionResults(t, data) ==> x == Success(true)
  }

  /** A tree none of whose operators carries `'AND'` (such as every rule the
      lookup table builds) is the disjunction of its conditions: it is true
      exactly when some condition is true. */
  lemma {:induction false} NoAndIsDisjunction(t: Node, data: map<string, Value>)
    requires AndCount(t) == 0
    ensures Evaluate(t, data).Success? ==> (Evaluate(t, data).value <==> SomeConditionTrue(t, data))
  {
    match t
    case Operand(c) =>
      assert Leaves(t)[0] == c;
    case Operator(v, l, r) =>
      NoAndIsDisjunction(l, data);
      NoAndIsDisjunction(r, data);
      assert ConditionResults(t, data) == ConditionResults(l, data) + ConditionResults(r, data);
  }

  /** A tree all of whose operators carry `'AND'` (such as a chain of
      combined conditions) is the conjunction of its conditions: it is true
      exactly when every condition is true. */
  lemma {:induction false} AllAndIsConjunction(t: Node, data: map<string, Value>)
    requires AndCount(t) == OperatorCount(t)
    ensures Evaluate(t, data).Success? ==> (Evaluate(t, data).value <==> EveryConditionTrue(t, data))
  {
    match t
    case Operand(c) =>
      var y := EvalCondition(c, data);
      assert ConditionResults(t, data) == [y];
      assert y in ConditionResults(t, data);
    case Operator(v, l, r) =>
      LeavesOutnumberOperators(l);
      LeavesOutnumberOperators(r);
      AllAndIsConjunction(l, data);
      AllAndIsConjunction(r, data);
      assert ConditionResults(t, data) == ConditionResults(l, data) + ConditionResults(r, data);
      var a, b := ConditionResults(l, data), ConditionResults(r, data);
      if EveryConditionTrue(l, data) && EveryConditionTrue(r, data) {
        forall x | x in a + b ensures x == Success(true) {
          assert x in a || x in b;
        }
      } else {
        assert !EveryConditionTrue(t, data) by {
          var x :| (x in a && x != Success(true)) || (x in b && x != Success(true));
          assert x in a + b;
        }
      }
      assert v == Some(And);
  }

  /** A tree evaluates exactly when every one of its conditions does. */
  lemma {:induction false} EvaluateSucceedsIff(t: Node, data: map<string, Value>)
    ensures Evaluate(t, data).Success? <==>
      forall i :: 0 <= i < |Leaves(t)| ==> EvalCondition(Leaves(t)[i], data).Success?
  {
    match t
    case Operand(c) =>
      assert Leaves(t)[0] == c;
    case Operator(v, l, r) =>
      EvaluateSucceedsIff(l, data);
      EvaluateSucceedsIff(r, data);
      var n := |Leaves(l)|;
      assert Leaves(t) == Leaves(l) + Leaves(r);
      if Evaluate(l, data).Failure? {
        var i :| 0 <= i < n && !EvalCondition(Leaves(l)[i], data).Success?;
        assert Leaves(t)[i] == Leaves(l)[i];
        assert Evaluate(t, data).Failure? && !EvalCondition(Leaves(t)[i], data).Success?;
      } else if Evaluate(r, data).Failure? {
        var i :| 0 <= i < |Leaves(r)| && !EvalCondition(Leaves(r)[i], data).Success?;
        assert Leaves(t)[n + i] == Leaves(r)[i];
        assert Evaluate(t, data).Failure? && !EvalCondition(Leaves(t)[n + i], data).Success?;
      } else {
        forall i | 0 <= i < |Leaves(t)|
          ensures EvalCondition(Leaves(t)[i], data).Success?
        {
          if i < n {
            assert Leaves(t)[i] == Leaves(l)[i];
          } else {
            assert Leaves(t)[i] == Leaves(r)[i - n];
          }
        }
      }
  }

  /** A failing tree fails with the error of its first failing condition,
      left to right. */
  lemma {:induction false} EvaluateFailsAtFirstError(t: Node, data: map<string, Value>)
    ensures Evaluate(t, data).Failure? ==> FailsAtFirstError(t, data)
  {
    match t
    case Operand(c) =>
      assert Leaves(t)[0] == c;
    case Operator(v, l, r) =>
      if Evaluate(l, data).Failure? {
        EvaluateFailsAtFirstError(l, data);
        FirstErrorInLeft(v, l, r, data);
      } else if Evaluate(r, data).Failure? {
        EvaluateSucceedsIff(l, data);
        EvaluateFailsAtFirstError(r, data);
        FirstErrorInRight(v, l, r, data);
      }
  }

  /** Some condition of `t` fails with `t`'s own outcome, and every condition before it evaluates. */
  ghost predicate FailsAtFirstError(t: Node, data: map<string, Value>)
  {
    exists i :: 0 <= i < |Leaves(t)| && Evaluate(t, data) == EvalCondition(Leaves(t)[i], data) &&
      forall j :: 0 <= j < i ==> EvalCondition(Leaves(t)[j], data).Success?
  }

  lemma FirstErrorInLeft(v: Option<string>, l: Node, r: Node, data: map<string, Value>)
    requires Evaluate(l, data).Failure? && FailsAtFirstError(l, data)
    ensures FailsAtFirstError(Operator(v, l, r), data)
  {
    var t := Operator(v, l, r);
    LeavesOfOperator(v, l, r);
    var i :| 0 <= i < |Leaves(l)| && Evaluate(l, data) == EvalCondition(Leaves(l)[i], data) &&
      forall j :: 0 <= j < i ==> EvalCondition(Leaves(l)[j], data).Success?;
    assert Evaluate(t, data) == EvalCondition(Leaves(t)[i], data);
  }

  lemma FirstErrorInRight(v: Option<string>, l: Node, r: Node, data: map<string, Value>)
    requires Evaluate(l, data).Success? && Evaluate(r, data).Failure? && FailsAtFirstError(r, data)
    requires forall i :: 0 <= i < |Leaves(l)| ==> EvalCondition(Leaves(l)[i], data).Success?
    ensures FailsAtFirstError(Operator(v, l, r), data)
  {
    var t := Operator(v, l, r);
    var n := |Leaves(l)|;
    LeavesOfOperator(v, l, r);
    var i :| 0 <= i < |Leaves(r)| && Evaluate(r, data) == EvalCondition(Leaves(r)[i], data) &&
      forall j :: 0 <= j < i ==> EvalCondition(Leaves(r)[j], data).Success?;
    assert Evaluate(t, data) == EvalCondition(Leaves(t)[n + i], data);
    forall j | 0 <= j < n + i
      ensures EvalCondition(Leaves(t)[j], data).Success?
    {
      if j >= n {
        assert Leaves(t)[j] == Leaves(r)[j - n];
      }
    }
  }

  /** A condition whose field the data does not bind makes the whole tree
      fail; it never reads as false. */
  lemma MissingFieldIsError(t: Node, data: map<string, Value>, i: nat)
    requires i < |Leaves(t)| && Leaves(t)[i].field !in data
    ensures Evaluate(t, data).Failure?
  {
    EvaluateSucceedsIff(t, data);
    assert !EvalCondition(Leaves(t)[i], data).Success?;
  }

  /** The evaluator is total over data that decides every condition. */
  lemma WellTypedEvaluates(t: Node, data: map<string, Value>)
    requires forall i :: 0 <= i < |Leaves(t)| ==> WellTyped(Leaves(t)[i], data)
    ensures Evaluate(t, data).Success?
  {
    EvaluateSucceedsIff(t, data);
  }

  /** A tree whose tokens are all comparators never raises SyntaxError. */
  lemma NoSyntaxErrorFromComparators(t: Node, data: map<string, Value>)
    requires forall i :: 0 <= i < |Leaves(t)| ==> ParseComparator(Leaves(t)[i].op).Some?
    ensures Evaluate(t, data).Failure? ==> !Evaluate(t, data).error.SyntaxError?
  {
    EvaluateFailsAtFirstError(t, data);
  }
}
