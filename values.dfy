/** The values a data record binds to field names, and the closed table of
    comparison operators that replaces Python's `eval` of a condition. The
    comparisons follow Python 3: booleans compare as the integers 0 and 1,
    strings compare lexicographically by code point, `==` and `!=` between
    values of unrelated kinds give False and True, and an ordering between
    them raises TypeError. */
module Values {
  import opened Wrappers

  /** A scalar of the JSON data record as Python sees it. */
  datatype Value = Int(i: int) | Str(s: string) | Bool(b: bool)

  /** The six comparison operators a condition may use. */
  datatype Comparator = Lt | Gt | Eq | Ne | Le | Ge

  /** The source text of each comparator. */
  function ComparatorText(c: Comparator): string
  {
    match c
    case Lt => "<"
    case Gt => ">"
    case Eq => "=="
    case Ne => "!="
    case Le => "<="
    case Ge => ">="
  }

  /** The closed table: a token names a comparator exactly when it is the
      text of one; every other token (such as the assignment `=`) is
      rejected. */
  function ParseComparator(token: string): (r: Option<Comparator>)
    ensures r.Some? ==> ComparatorText(r.value) == token
    ensures r.None? ==> forall c :: ComparatorText(c) != token
  {
    if token == "<" then Some(Lt)
    else if token == ">" then Some(Gt)
    else if token == "==" then Some(Eq)
    else if token == "!=" then Some(Ne)
    else if token == "<=" then Some(Le)
    else if token == ">=" then Some(Ge)
    else None
  }

  lemma ParseComparatorText(c: Comparator)
    ensures ParseComparator(ComparatorText(c)) == Some(c)
  {
  }

  /** The comparator that holds of (y, x) exactly when `c` holds of (x, y). */
  function Converse(c: Comparator): Comparator
  {
    match c
    case Lt => Gt
    case Gt => Lt
    case Le => Ge
    case Ge => Le
    case Eq => Eq
    case Ne => Ne
  }

  /** The integer a value stands for in arithmetic comparisons (Python's
      `bool` is a subclass of `int`); strings have none. */
  function Numeric(v: Value): Option<int>
  {
    match v
    case Int(i) => Some(i)
    case Bool(b) => Some(if b then 1 else 0)
    case Str(_) => None
  }

  function Sign(d: int): int
  {
    if d < 0 then -1 else if d > 0 then 1 else 0
  }

  /** Lexicographic three-way comparison of two strings by code point; a
      proper prefix is smaller. */
  function StringOrder(a: string, b: string): (r: int)
    ensures -1 <= r <= 1
    ensures r == 0 <==> a == b
    decreases |a|
  {
    if a == [] then (if b == [] then 0 else -1)
    else if b == [] then 1
    else if a[0] < b[0] then -1
    else if a[0] > b[0] then 1
    else StringOrder(a[1..], b[1..])
  }

  lemma {:induction false} StringOrderAntisymmetric(a: string, b: string)
    ensures StringOrder(a, b) == -StringOrder(b, a)
    decreases |a|
  {
    if a != [] && b != [] && a[0] == b[0] {
      StringOrderAntisymmetric(a[1..], b[1..]);
    }
  }

  /** `a` is a proper prefix of `b`. */
  predicate ProperPrefix(a: string, b: string)
  {
    |a| < |b| && a == b[..|a|]
  }

  /** `a` and `b` agree before index `k` and `a` has the smaller code point there. */
  predicate SmallerAt(a: string, b: string, k: nat)
  {
    k < |a| && k < |b| && a[..k] == b[..k] && a[k] < b[k]
  }

  /** Lexicographic order by code point, stated directly. */
  ghost predicate LexLess(a: string, b: string)
  {
    ProperPrefix(a, b) || exists k: nat :: SmallerAt(a, b, k)
  }

  lemma SmallerAtShift(a: string, b: string, k: nat)
    requires a != [] && b != [] && a[0] == b[0]
    ensures SmallerAt(a, b, k + 1) <==> SmallerAt(a[1..], b[1..], k)
    ensures ProperPrefix(a, b) <==> ProperPrefix(a[1..], b[1..])
  {
    if k + 1 < |a| && k + 1 < |b| {
      assert a[..k + 1] == [a[0]] + a[1..][..k];
      assert b[..k + 1] == [b[0]] + b[1..][..k];
    }
    assert a == [a[0]] + a[1..];
    if |a| <= |b| {
      assert b[..|a|] == [b[0]] + b[1..][..|a| - 1];
    }
  }

  /** StringOrder is Python's lexicographic ordering: negative exactly when
      the first string is a proper prefix of the second or is smaller at the
      first index where they differ, positive exactly in the mirrored case. */
  lemma {:induction false} StringOrderLexicographic(a: string, b: string)
    ensures StringOrder(a, b) < 0 <==> LexLess(a, b)
    ensures StringOrder(a, b) > 0 <==> LexLess(b, a)
    decreases |a|
  {
    StringOrderAntisymmetric(a, b);
    StringOrderLessIsLex(a, b);
    StringOrderLessIsLex(b, a);
  }

  lemma {:induction false} StringOrderLessIsLex(a: string, b: string)
    ensures StringOrder(a, b) < 0 <==> LexLess(a, b)
    decreases |a|
  {
    if a == [] {
      assert !SmallerAt(a, b, 0);
      if b != [] {
        assert ProperPrefix(a, b);
      }
    } else if b == [] {
      forall k: nat ensures !SmallerAt(a, b, k) {}
    } else if a[0] < b[0] {
      assert a[..0] == b[..0];
      assert SmallerAt(a, b, 0);
    } else if a[0] > b[0] {
      forall k: nat ensures !SmallerAt(a, b, k) {}
      assert !ProperPrefix(a, b);
    } else {
      StringOrderLessIsLex(a[1..], b[1..]);
      SmallerAtShift(a, b, 0);
      assert !SmallerAt(a, b, 0);
      if exists k: nat :: SmallerAt(a[1..], b[1..], k) {
        var k: nat :| SmallerAt(a[1..], b[1..], k);
        SmallerAtShift(a, b, k);
      }
      if exists k: nat :: SmallerAt(a, b, k) {
        var k: nat :| SmallerAt(a, b, k);
        SmallerAtShift(a, b, k - 1);
      }
    }
  }

  /** Three-way ordering of two values, or None where an ordering comparison
      raises TypeError. */
  function Order(x: Value, y: Value): (r: Option<int>)
    ensures r.Some? <==> (Numeric(x).Some? && Numeric(y).Some?) || (x.Str? && y.Str?)
    ensures r.Some? ==> -1 <= r.value <= 1
    ensures Numeric(x).Some? && Numeric(y).Some? ==>
      (r.value < 0 <==> Numeric(x).value < Numeric(y).value) &&
      (r.value == 0 <==> Numeric(x).value == Numeric(y).value)
  {
    if Numeric(x).Some? && Numeric(y).Some? then Some(Sign(Numeric(x).value - Numeric(y).value))
    else if x.Str? && y.Str? then Some(StringOrder(x.s, y.s))
    else None
  }

  lemma OrderAntisymmetric(x: Value, y: Value)
    ensures Order(x, y).Some? <==> Order(y, x).Some?
    ensures Order(x, y).Some? ==> Order(y, x).value == -Order(x, y).value
  {
    if x.Str? && y.Str? {
      StringOrderAntisymmetric(x.s, y.s);
    }
  }

  /** Python's `==` on two values. */
  function PyEquals(x: Value, y: Value): bool
  {
    if Numeric(x).Some? && Numeric(y).Some? then Numeric(x).value == Numeric(y).value
    else if x.Str? && y.Str? then x.s == y.s
    else false
  }

  /** `==` agrees with the ordering wherever the ordering is defined, and
      coincides with equality of values of the same kind. */
  lemma EqualsAgreesWithOrder(x: Value, y: Value)
    ensures PyEquals(x, y) <==> Order(x, y) == Some(0)
    ensures (x.Int? && y.Int?) || (x.Str? && y.Str?) || (x.Bool? && y.Bool?) ==> (PyEquals(x, y) <==> x == y)
  {
  }

  /** What an ordering comparator says of a three-way result. */
  function Holds(c: Comparator, o: int): bool
  {
    match c
    case Lt => o < 0
    case Gt => o > 0
    case Le => o <= 0
    case Ge => o >= 0
    case Eq => o == 0
    case Ne => o != 0
  }

  /** One comparison `x c y` of the closed table. */
  function Compare(c: Comparator, x: Value, y: Value): (r: Result<bool>)
    ensures r.Failure? <==> c != Eq && c != Ne && Order(x, y).None?
    ensures r.Failure? ==> r.error == TypeError(ComparatorText(c))
    ensures r.Success? && Order(x, y).Some? ==> r.value == Holds(c, Order(x, y).value)
    ensures (c == Eq || c == Ne) && Order(x, y).None? ==> r == Success(c == Ne)
  {
    if c == Eq then Success(PyEquals(x, y))
    else if c == Ne then Success(!PyEquals(x, y))
    else match Order(x, y)
      case None => Failure(TypeError(ComparatorText(c)))
      case Some(o) => Success(Holds(c, o))
  }

  /** Swapping the operands and the comparator gives the same answer (and the
      same kind of outcome). */
  lemma {:induction false} CompareConverse(c: Comparator, x: Value, y: Value)
    ensures Compare(c, x, y).Success? <==> Compare(Converse(c), y, x).Success?
    ensures Compare(c, x, y).Success? ==> Compare(c, x, y).value == Compare(Converse(c), y, x).value
  {
    OrderAntisymmetric(x, y);
    EqualsAgreesWithOrder(x, y);
    EqualsAgreesWithOrder(y, x);
  }

  /** `!=` is the negation of `==`, and between comparable values `<`/`>=`
      and `>`/`<=` are complementary. */
  lemma CompareComplements(x: Value, y: Value)
    ensures Compare(Ne, x, y).value == !Compare(Eq, x, y).value
    ensures Order(x, y).Some? ==> Compare(Lt, x, y).value == !Compare(Ge, x, y).value
    ensures Order(x, y).Some? ==> Compare(Gt, x, y).value == !Compare(Le, x, y).value
  {
  }

  /** On integers the table is integer comparison. */
  lemma CompareIntegers(a: int, b: int)
    ensures Compare(Lt, Int(a), Int(b)) == Success(a < b)
    ensures Compare(Gt, Int(a), Int(b)) == Success(a > b)
    ensures Compare(Le, Int(a), Int(b)) == Success(a <= b)
    ensures Compare(Ge, Int(a), Int(b)) == Success(a >= b)
    ensures Compare(Eq, Int(a), Int(b)) == Success(a == b)
    ensures Compare(Ne, Int(a), Int(b)) == Success(a != b)
  {
  }

  /** A boolean compares as the integer 1 or 0, on either side. */
  lemma CompareBooleansAsIntegers(c: Comparator, b: bool, x: Value)
    ensures Compare(c, Bool(b), x) == Compare(c, Int(if b then 1 else 0), x)
    ensures Compare(c, x, Bool(b)) == Compare(c, x, Int(if b then 1 else 0))
  {
  }

  /** On strings the table is lexicographic comparison by code point. */
  lemma CompareStrings(a: string, b: string)
    ensures Compare(Lt, Str(a), Str(b)) == Success(LexLess(a, b))
    ensures Compare(Gt, Str(a), Str(b)) == Success(LexLess(b, a))
    ensures Compare(Le, Str(a), Str(b)) == Success(!LexLess(b, a))
    ensures Compare(Ge, Str(a), Str(b)) == Success(!LexLess(a, b))
    ensures Compare(Eq, Str(a), Str(b)) == Success(a == b)
  {
    StringOrderLexicographic(a, b);
  }
}
