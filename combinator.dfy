/** `combine_rules`: folds a list of rule trees from the left into a chain of
    `'AND'` operator nodes. */
module Combinator {
  import opened Wrappers
  import opened Values
  import opened Ast
  import opened Evaluator

  /** The loop of `combine_rules`: each remaining tree becomes the right
      child of a new `'AND'` node whose left child is the tree so far. */
  function FoldAnd(acc: Node, rest: seq<Node>): Node
    decreases |rest|
  {
    if rest == [] then acc
    else FoldAnd(Operator(Some(And), acc, rest[0]), rest[1..])
  }

  /** The tree `combine_rules` returns for a non-empty list. */
  function Chain(rules: seq<Node>): Node
    requires |rules| > 0
  {
    FoldAnd(rules[0], rules[1..])
  }

  /** `combine_rules`. A one-element list comes back as its element, with no
      wrapper node; an empty list raises IndexError at `rules[0]`. */
  method CombineRules(rules: seq<Node>) returns (r: Result<Node>)
    ensures rules == [] ==> r == Failure(IndexError)
    ensures |rules| == 1 ==> r == Success(rules[0])
    ensures rules != [] ==> r == Success(Chain(rules))
  {
    if |rules| == 1 {
      return Success(rules[0]);
    }
    if |rules| == 0 {
      return Failure(IndexError);
    }
    var combined := rules[0];
    var i := 1;
    while i < |rules|
      invariant 1 <= i <= |rules|
      invariant FoldAnd(combined, rules[i..]) == Chain(rules)
    {
      assert rules[i..][1..] == rules[i + 1..];
      combined := Operator(Some(And), combined, rules[i]);
      i := i + 1;
    }
    return Success(combined);
  }

  /** The rules' leaves, rule after rule. */
  function AllLeaves(rules: seq<Node>): seq<Condition>
  {
    if rules == [] then [] else Leaves(rules[0]) + AllLeaves(rules[1..])
  }

  function TotalOperators(rules: seq<Node>): nat
  {
    if rules == [] then 0 else OperatorCount(rules[0]) + TotalOperators(rules[1..])
  }

  function TotalAnds(rules: seq<Node>): nat
  {
    if rules == [] then 0 else AndCount(rules[0]) + TotalAnds(rules[1..])
  }

  lemma {:induction false} FoldSpine(acc: Node, rest: seq<Node>, k: nat)
    requires Spine(acc, k).Some?
    ensures Spine(FoldAnd(acc, rest), k + |rest|) == Some(Spine(acc, k).value + rest)
    decreases |rest|
  {
    if rest == [] {
      assert Spine(acc, k).value + rest == Spine(acc, k).value;
    } else {
      var next := Operator(Some(And), acc, rest[0]);
      assert FoldAnd(acc, rest) == FoldAnd(next, rest[1..]);
      assert Spine(next, k + 1) == Some(Spine(acc, k).value + [rest[0]]);
      FoldSpine(next, rest[1..], k + 1);
      assert Spine(acc, k).value + [rest[0]] + rest[1..] == Spine(acc, k).value + rest;
    }
  }

  /** The combined tree's left spine is exactly `|rules| - 1` `'AND'` nodes,
      and peeling them gives back the original trees in input order. */
  lemma ChainSpine(rules: seq<Node>)
    requires |rules| > 0
    ensures Spine(Chain(rules), |rules| - 1) == Some(rules)
  {
    var rest := rules[1..];
    assert Chain(rules) == FoldAnd(rules[0], rest);
    assert |rules| - 1 == 0 + |rest|;
    assert [rules[0]] + rest == rules;
    FoldSpine(rules[0], rest, 0);
  }

  lemma {:induction false} FoldCounts(acc: Node, rest: seq<Node>)
    ensures Leaves(FoldAnd(acc, rest)) == Leaves(acc) + AllLeaves(rest)
    ensures OperatorCount(FoldAnd(acc, rest)) == OperatorCount(acc) + |rest| + TotalOperators(rest)
    ensures AndCount(FoldAnd(acc, rest)) == AndCount(acc) + |rest| + TotalAnds(rest)
    decreases |rest|
  {
    if rest != [] {
      FoldCounts(Operator(Some(And), acc, rest[0]), rest[1..]);
      assert Leaves(acc) + Leaves(rest[0]) + AllLeaves(rest[1..]) == Leaves(acc) + AllLeaves(rest);
    }
  }

  /** Combining adds exactly `|rules| - 1` operator nodes, all of them
      `'AND'`, and keeps every leaf of every rule, in order. */
  lemma ChainCounts(rules: seq<Node>)
    requires |rules| > 0
    ensures Leaves(Chain(rules)) == AllLeaves(rules)
    ensures OperatorCount(Chain(rules)) == |rules| - 1 + TotalOperators(rules)
    ensures AndCount(Chain(rules)) == |rules| - 1 + TotalAnds(rules)
  {
    FoldCounts(rules[0], rules[1..]);
  }

  /** The outcome of evaluating two subtrees one after the other and
      conjoining them: the first error wins. */
  function Conjoin(a: Result<bool>, b: Result<bool>): Result<bool>
  {
    match a
    case Failure(e) => Failure(e)
    case Success(x) =>
      match b
      case Failure(e) => Failure(e)
      case Success(y) => Success(x && y)
  }

  /** Every rule evaluated in order, stopping at the first error: success
      exactly when each rule evaluates, true exactly when each is true. */
  function AllHold(rules: seq<Node>, data: map<string, Value>): (r: Result<bool>)
    ensures r.Success? <==> forall i :: 0 <= i < |rules| ==> Evaluate(rules[i], data).Success?
    ensures r.Success? ==> (r.value <==> forall i :: 0 <= i < |rules| ==> Evaluate(rules[i], data) == Success(true))
    ensures r.Failure? ==>
      exists i :: 0 <= i < |rules| && r == Evaluate(rules[i], data) &&
        forall j :: 0 <= j < i ==> Evaluate(rules[j], data).Success?
  {
    if rules == [] then Success(true)
    else
      var r := Conjoin(Evaluate(rules[0], data), AllHold(rules[1..], data));
      assert forall i :: 1 <= i < |rules| ==> rules[i] == rules[1..][i - 1];
      assert r.Failure? && Evaluate(rules[0], data).Success? ==>
        exists i :: 1 <= i < |rules| && r == Evaluate(rules[i], data) &&
          forall j :: 0 <= j < i ==> Evaluate(rules[j], data).Success?;
      r
  }

  lemma {:induction false} FoldEvaluates(acc: Node, rest: seq<Node>, data: map<string, Value>)
    ensures Evaluate(FoldAnd(acc, rest), data) == Conjoin(Evaluate(acc, data), AllHold(rest, data))
    decreases |rest|
  {
    if rest == [] {
    } else {
      FoldEvaluates(Operator(Some(And), acc, rest[0]), rest[1..], data);
    }
  }

  /** The combined tree holds exactly when every rule holds; it fails with
      the first error met among the rules, in input order. */
  lemma ChainEvaluates(rules: seq<Node>, data: map<string, Value>)
    requires |rules| > 0
    ensures Evaluate(Chain(rules), data) == AllHold(rules, data)
  {
    FoldEvaluates(rules[0], rules[1..], data);
  }
}
