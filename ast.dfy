/** The rule tree (`Node` of the source). */
module Ast {
  import opened Wrappers
  import opened Values

  /** The comparison an operand leaf holds, in place of the condition text
      that the source hands to `eval`: a field name, the comparator token as
      written, and a literal. The token stays as written so that a token
      outside the closed comparator table can be represented; it is rejected
      when the leaf is evaluated, as Python rejects it when it compiles the
      text. */
  datatype Condition = Condition(field: string, op: string, literal: Value)

  /** A leaf (`'operand'`) holds one condition; an internal node
      (`'operator'`) holds its connective in `value`, which may be absent, and
      two children. */
  datatype Node =
    | Operand(cond: Condition)
    | Operator(value: Option<string>, left: Node, right: Node)

  /** Decimal digits of a natural number, most significant first. */
  function DigitsText(n: nat): (r: string)
    ensures |r| >= 1
    ensures forall i :: 0 <= i < |r| ==> '0' <= r[i] <= '9'
    decreases n
  {
    if n < 10 then ["0123456789"[n]] else DigitsText(n / 10) + ["0123456789"[n % 10]]
  }

  /** A literal as it is spelled in Python source: an integer in decimal,
      a string between single quotes, a boolean as `True` or `False`. */
  function LiteralText(v: Value): string
  {
    match v
    case Int(i) => if i < 0 then "-" + DigitsText(-i) else DigitsText(i)
    case Str(s) => "'" + s + "'"
    case Bool(b) => if b then "True" else "False"
  }

  /** The condition text a leaf stands for: field, token and literal
      separated by single spaces. */
  function ConditionText(c: Condition): string
  {
    c.field + " " + c.op + " " + LiteralText(c.literal)
  }

  /** The connective that makes an operator node a conjunction. */
  const And: string := "AND"

  /** The conditions at the leaves, left to right. */
  function Leaves(t: Node): seq<Condition>
  {
    match t
    case Operand(c) => [c]
    case Operator(_, l, r) => Leaves(l) + Leaves(r)
  }

  function OperatorCount(t: Node): nat
  {
    match t
    case Operand(_) => 0
    case Operator(_, l, r) => 1 + OperatorCount(l) + OperatorCount(r)
  }

  /** The number of operator nodes whose value is `'AND'`. */
  function AndCount(t: Node): nat
  {
    match t
    case Operand(_) => 0
    case Operator(v, l, r) => (if v == Some(And) then 1 else 0) + AndCount(l) + AndCount(r)
  }

  /** Where each child's leaves sit among an operator node's leaves. */
  lemma LeavesOfOperator(v: Option<string>, l: Node, r: Node)
    ensures |Leaves(Operator(v, l, r))| == |Leaves(l)| + |Leaves(r)|
    ensures forall i :: 0 <= i < |Leaves(l)| ==> Leaves(Operator(v, l, r))[i] == Leaves(l)[i]
    ensures forall i :: 0 <= i < |Leaves(r)| ==> Leaves(Operator(v, l, r))[|Leaves(l)| + i] == Leaves(r)[i]
  {
  }

  /** Every tree is strictly binary: it has one more leaf than operators. */
  lemma {:induction false} LeavesOutnumberOperators(t: Node)
    ensures |Leaves(t)| == OperatorCount(t) + 1
    ensures AndCount(t) <= OperatorCount(t)
  {
    match t
    case Operand(_) =>
    case Operator(_, l, r) =>
      LeavesOutnumberOperators(l);
      LeavesOutnumberOperators(r);
  }

  /** Peels `k` `'AND'` nodes off the left spine of `t` and returns the
      innermost left subtree followed by the right children met on the way
      up, or None when the spine is shorter than `k` or carries another value. */
  function Spine(t: Node, k: nat): Option<seq<Node>>
  {
    if k == 0 then Some([t])
    else match t
      case Operand(_) => None
      case Operator(v, l, r) =>
        if v != Some(And) then None
        else match Spine(l, k - 1)
          case None => None
          case Some(s) => Some(s + [r])
  }
}
