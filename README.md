# Rule engine core: rule trees, combination and evaluation

This project models the core of a small eligibility-rule service. A rule
string is looked up and turned into a tree (`create_rule`), the stored trees
are folded into one conjunction (`combine_rules`), and the combined tree is
evaluated against a record of field values (`evaluate_rule`). The in-memory
list of accepted rules is modelled as a class.

Modules, one per component of `app.py`:

- `Wrappers` (wrappers.dfy): `Option`, `Result`, and the Python exceptions the
  core raises (`IndexError`, `NameError`, `TypeError`, `SyntaxError`) as values.
- `Values` (values.dfy): data values and the closed comparator table.
  It replaces `eval` on a condition's text with the six comparisons
  `<`, `>`, `==`, `!=`, `<=`, `>=`. Comparisons follow Python 3:
  - booleans compare as 0 and 1;
  - strings compare lexicographically by code point;
  - `==` between unrelated kinds is False and `!=` is True;
  - an ordering between unrelated kinds raises TypeError.
- `Ast` (ast.dfy): `Node`, with `Operand(cond)` and `Operator(value, left, right)`.
  The operator's `value` is an `Option<string>`, because the source leaves it unset for two rules.
  A leaf's `Condition(field, op, literal)` keeps the comparator token as written.
- `Evaluator` (evaluator.dfy): `evaluate_rule`. It evaluates both children, then combines them.
  A node is a conjunction exactly when its value is `'AND'`, and a disjunction otherwise.
- `Rules` (rules.dfy): `create_rule`, a fixed table of three rule strings.
- `Combinator` (combinator.dfy): `combine_rules`, a method with the source's loop, specified by a left fold.
- `Store` (store.dfy): `RuleStore`, the global `rules` list and the three requests' use of it.

Two behaviours of the source are modelled as they are:

- The two rules named with AND (`app.py:18-22`) build an operator node with no value.
  `app.py:46` treats every value other than `'AND'` as OR.
  As written, these two rules never reach that line with a value: every evaluation fails (see Findings; `Rules.AsWrittenAndRulesNeverEvaluate`, `Rules.AsWrittenExamples`). The age condition is evaluated first. When it cannot be decided, because `age` is unbound or cannot be ordered against a number, it raises NameError or TypeError. Otherwise the department condition's `=` raises SyntaxError.
  Once `=` is read as `==` (the corrected table `Rules.CreateRule`), they evaluate as disjunctions.
  `Rules.CreatedRuleIsDisjunction` and `Rules.AgeSalesExamples` prove this about the corrected table.
  For example, under the corrected table `{age: 20, department: "Sales"}` satisfies the rule called
  "age > 30 AND department = 'Sales'", although its name suggests a conjunction, which would give false.
  The corrected table follows the code in everything but the `=`.
- A missing field is an error (Python's NameError), never false. This holds for the four field names the rules use, none of which is a Python builtin.
  Both children are always evaluated, so an error on the right aborts evaluation even when the left side alone would decide the result.

Evaluation is a function of the tree and the data. It cannot change either, and the same inputs always give the same result.

## Model

| member | source | states |
|---|---|---|
| Values.ParseComparator | app.py:42 | A token is accepted exactly when it is the text of one of the six comparators, and the comparator returned has that text; every other token, `=` included, is rejected |
| Values.ParseComparatorText | app.py:42 | Parsing a comparator's own text gives that comparator back |
| Values.StringOrder | app.py:42 | Python's string ordering is three-way, and equal to 0 exactly when the two strings are equal |
| Values.StringOrderAntisymmetric | app.py:42 | Swapping two strings negates their ordering |
| Values.StringOrderLexicographic | app.py:42 | The string ordering is lexicographic by code point: negative exactly when the first string is a proper prefix of the second or has the smaller code point at the first index where they differ, and positive exactly in the mirrored case |
| Values.Order | app.py:42 | Two values are ordered exactly when both are numbers (booleans included) or both are strings; the result is -1, 0 or 1; on numbers it is negative exactly when the first is smaller and 0 exactly when they are equal |
| Values.OrderAntisymmetric | app.py:42 | Ordering is defined in both directions or neither, and swapping the operands negates it |
| Values.EqualsAgreesWithOrder | app.py:42 | Python `==` holds exactly when the ordering is 0; on values of one kind it is plain equality |
| Values.Compare | app.py:42 | A comparison fails, with TypeError naming the comparator, exactly when it is an ordering between incomparable values; `==` and `!=` never fail, and between incomparable values `==` is False and `!=` is True; where values are ordered, the result is what the comparator says of their ordering |
| Values.CompareIntegers | app.py:42 | On two integers the six comparators give exactly `a < b`, `a > b`, `a <= b`, `a >= b`, `a == b` and `a != b` |
| Values.CompareBooleansAsIntegers | app.py:42 | A boolean on either side compares exactly as the integer 1 (True) or 0 (False) |
| Values.CompareStrings | app.py:42 | On two strings `<`, `>`, `<=`, `>=` are lexicographic comparison by code point and `==` is equality of the strings |
| Values.CompareConverse | app.py:42 | `x c y` and `y c' x`, with `c'` the converse comparator, agree on success and on the answer |
| Values.CompareComplements | app.py:42 | `!=` negates `==`; on comparable values `<` negates `>=` and `>` negates `<=` |
| Ast.LeavesOutnumberOperators | app.py:4-9 | Every tree is strictly binary: its leaves number its operator nodes plus one, and its `'AND'` nodes are among its operators |
| Evaluator.EvalCondition | app.py:40-42 | A condition with a token outside the table raises SyntaxError; otherwise an unbound field raises NameError; otherwise an ordering between incomparable values raises TypeError, and in every other case the result is the comparison of the field's value with the literal |
| Evaluator.Evaluate | app.py:39-46 | Evaluates both children before combining them, as AND exactly when the value is `'AND'` and as OR otherwise; a failure is always a condition's NameError, TypeError or SyntaxError. Its partners are `EvaluateSucceedsIff`, `EvaluateFailsAtFirstError`, `NoAndIsDisjunction`, `AllAndIsConjunction` and `Combinator.ChainEvaluates` |
| Evaluator.NoAndIsDisjunction | app.py:39-46 | A tree with no `'AND'` operator, when it evaluates, is true exactly when some condition is true |
| Evaluator.AllAndIsConjunction | app.py:39-46 | A tree whose every operator is `'AND'`, when it evaluates, is true exactly when every condition is true |
| Evaluator.EvaluateSucceedsIff | app.py:39-46 | A tree evaluates exactly when each of its conditions does |
| Evaluator.EvaluateFailsAtFirstError | app.py:39-46 | A failing tree fails with the error of its first failing condition, left to right: every condition before that one evaluates |
| Evaluator.MissingFieldIsError | app.py:42 | A tree with a condition on a field that the data does not bind fails rather than yielding false |
| Evaluator.WellTypedEvaluates | app.py:39-46 | Evaluation is total on data that decides every condition |
| Evaluator.NoSyntaxErrorFromComparators | app.py:39-46 | A tree whose every token is a comparator never fails with SyntaxError: only the data can make it fail |
| Rules.BuildRule | app.py:15-26 | The rule table returns None exactly for unrecognised strings; each recognised rule is an operator node over two operand leaves; its value is `'OR'` for the OR rule and none for the two AND-named rules, whose right leaf is the `department` condition carrying the given token. Which field, token and literal each leaf holds is pinned by `Rules.AsWrittenTreesSpellTheirKeys` and `Rules.CorrectionChangesOnlyAssignment` |
| Rules.CreateRuleAsWritten | app.py:15-26 | As written: None exactly for unrecognised strings, two operand children, and the AND-named rules' department leaf carries a token outside the comparator table |
| Rules.CreateRule | app.py:15-26 | Corrected table: None exactly for unrecognised strings; each rule is an operator over two operand leaves; its value is `'OR'` only for the OR rule and none otherwise; every leaf's token is a comparator |
| Rules.CreatedRuleIsDisjunction | app.py:18-25 | Corrected table: every created rule evaluates as its left condition OR its right condition, the two AND-named ones included (the value is not `'AND'`, app.py:46) |
| Rules.AsWrittenAndRulesNeverEvaluate | app.py:18-22 | As written, the two AND-named rules fail to evaluate on every data record: with NameError when `age` is unbound, with TypeError when `age` is not a number, and otherwise with SyntaxError from `=` |
| Rules.AsWrittenTreesSpellTheirKeys | app.py:17-25 | Each as-written tree spells its own key: the two leaves' texts (field, token, literal as Python source), joined by ` OR ` when the node's value is `'OR'` and by ` AND ` otherwise, are exactly the rule string it is stored under |
| Rules.CorrectionChangesOnlyAssignment | app.py:19 | The corrected table agrees with the table as written in every node and leaf, except that the department token `=` becomes `==` |
| Rules.AsWrittenExamples | app.py:17-19 | As written: `{age: 20, department: "Sales"}` and `{age: 35}` both get SyntaxError from the "age > 30 AND department = 'Sales'" rule, while `{department: "Sales"}` gets NameError for `age` first |
| Rules.CorrectedAndRulesEvaluate | app.py:18-22 | Corrected table: with `==`, the same rules evaluate on every record binding `age` to a number and binding `department` |
| Rules.AgeSalesExamples | app.py:17-19 | Corrected table, worked cases: age 35 in Sales and age 20 in Sales both satisfy the rule, while age 20 in Marketing does not |
| Rules.SalaryExperienceExample | app.py:23-25 | Worked case: salary 10000 with experience 7 satisfies the OR rule |
| Rules.MissingFieldExample | app.py:17-19 | Corrected table, worked case: a record with `age` 35 and no `department` gives NameError naming `department` |
| Rules.TypeMismatchExample | app.py:20-22 | Corrected table, worked case: a string `age` compared with `<` gives TypeError |
| Combinator.CombineRules | app.py:29-36 | An empty list raises IndexError; a one-element list returns its element with no wrapper; otherwise the left-nested `'AND'` chain of the trees |
| Combinator.ChainSpine | app.py:33-36 | The combined tree's left spine has exactly n-1 `'AND'` nodes, and peeling them returns the original trees in input order |
| Combinator.ChainCounts | app.py:33-36 | Combining adds exactly n-1 operator nodes, all with value `'AND'`, and keeps every leaf of every rule in order |
| Combinator.AllHold | app.py:44-46 | Reference for evaluating a list of rules in order: succeeds exactly when every rule evaluates, is true exactly when every rule is true, and otherwise fails with the first rule's error |
| Combinator.ChainEvaluates | app.py:33-36 | Evaluating the combined tree equals evaluating every rule in input order and conjoining, first error winning |
| Store.RuleStore.constructor | app.py:50 | The store starts empty |
| Store.RuleStore.Add | app.py:55-60 | Accepts exactly the recognised strings; on success the store grows by exactly the new tree, otherwise it is unchanged; the store holds only trees `create_rule` produced |
| Store.RuleStore.Combine | app.py:65 | Combining an empty store raises IndexError; otherwise the result's spine returns the stored rules in order |
| Store.RuleStore.EvaluateCombined | app.py:71-73 | Evaluating the combined store raises IndexError when it is empty, and otherwise holds exactly when every stored rule holds, failing with the first error in insertion order; a store of table rules never fails with SyntaxError |
| Store.StoredRulesRaiseNoSyntaxError | app.py:71-73 | Evaluating a list of table rules fails, if at all, on the data (NameError or TypeError), never with SyntaxError |
| Store.AsWrittenStoreNeverEvaluates | app.py:56-58 | Had the store kept the as-written trees, one AND-named rule anywhere in it makes evaluating every rule, and evaluating the combined tree, fail on every record |

## Findings

| source | as written | input that shows it | evidently intended | confidence | as-written member | corrected member |
|---|---|---|---|---|---|---|
| app.py:19 and app.py:22 | The department conditions are written `department = 'Sales'` and `department = 'Marketing'`. In Python `=` is assignment, which `eval` rejects with SyntaxError | Evaluating the rule "age > 30 AND department = 'Sales'" against `{age: 35, department: "Sales"}` raises SyntaxError. It fails on every record | `department == 'Sales'` and `department == 'Marketing'` | high; not executed | Rules.CreateRuleAsWritten, Rules.AsWrittenAndRulesNeverEvaluate | Rules.CreateRule, Rules.CorrectedAndRulesEvaluate |

`Rules.CreateRule` is the table the store uses.

## Left out

- Store.RuleStore.Add: keeps the corrected table's trees (`Rules.CreateRule`, with `==`), whereas the source appends the `=` trees; with those stored, every later evaluate request fails (`Store.AsWrittenStoreNeverEvaluates`, see Findings).
- The Flask application is not modelled: routes, `request.json`, `jsonify`, the HTTP status codes and `app.run` (app.py:1, app.py:49, app.py:53-78). It is I/O plumbing.
  The store methods model only what the three request handlers do with the rule list.
  In the source, an empty list on combine or evaluate raises IndexError and becomes a server error; here it is `Failure(IndexError)`.
- `eval` with full Python expression semantics (app.py:42) is replaced by the closed comparator table over one comparison `field op literal`.
  `eval(..., {}, data)` also makes Python's builtins visible, so a condition on a field named like a builtin (`id`, `len`) would not raise NameError when the field is unbound: `<` would raise TypeError and `==` would be False. The model treats every unbound field as NameError. This makes no difference for the fields the rule table uses (`age`, `department`, `salary`, `experience`).
  Every condition the source builds has this shape.
  Python's syntax check is modelled only as "the token is a comparator". A failing check gives `SyntaxError`.
- Evaluator.EvalCondition: JSON floats, `null`, lists and objects as data values are not modelled. Only integers, strings and booleans are.
  Floating-point comparison is left out, and so are Python's `None == None` and container comparisons.
- Error messages are reduced to the exception kind plus the offending name or token.
- `Node.__repr__` (app.py:11-12) and the `str(ast)` in the responses are one-way debug strings and are not modelled.
- Concurrent requests against the global `rules` list (app.py:50) are not modelled.
- Evaluator.Evaluate: Python's recursion limit is not modelled; evaluation and `AllHold` are unbounded.
  `evaluate_rule` recurses on the left child (app.py:44), and the chain `combine_rules` builds is as deep as the number of stored rules. Nothing bounds the store, because app.py:58 appends on every recognised request, duplicates included. So in the source, evaluating a store of more than about 1000 rules raises RecursionError (a server error), while `Store.RuleStore.EvaluateCombined` returns `AllHold(rules, data)`.
- A node whose `type` is neither `'operand'` nor `'operator'` makes `evaluate_rule` return None. The source never builds one, and the two-variant `Node` cannot represent one.
