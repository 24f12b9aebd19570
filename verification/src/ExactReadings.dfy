/** Bit patterns and operations under which every operation is exact: a pattern encodes the expression it is the
    value of. */
module ExactReadings {
  import opened Propagator
  import opened Normalization

  // ---- Pairs of numbers as one number, diagonal by diagonal ----

  function Unpair(n: nat): (p: (nat, nat))
    ensures p.0 <= n && p.1 <= n
  {
    if n == 0 then (0, 0)
    else
      var p := Unpair(n - 1);
      if p.0 == 0 then (p.1 + 1, 0) else (p.0 - 1, p.1 + 1)
  }

  function Pair(a: nat, b: nat): nat
    decreases a + b, b
  {
    if b > 0 then Pair(a + 1, b - 1) + 1
    else if a > 0 then Pair(0, a - 1) + 1
    else 0
  }

  lemma {:induction false} UnpairPair(a: nat, b: nat)
    ensures Unpair(Pair(a, b)) == (a, b)
    decreases a + b, b
  {
    if b > 0 {
      UnpairPair(a + 1, b - 1);
    } else if a > 0 {
      UnpairPair(0, a - 1);
    }
  }

  // ---- Patterns ----

  datatype Op = Plus | TimesOp | Over | Root

  function Code(op: Op): nat {
    match op case Plus => 0 case TimesOp => 1 case Over => 2 case Root => 3
  }

  function Index(x: int): nat { if x < 0 then 0 else x }

  /** 0 and 1 stand for themselves, the patterns from 2 on for an operation on two earlier patterns. */
  function Apply(op: Op, x: int, y: int): nat {
    2 + 4 * Pair(Index(x), Index(y)) + Code(op)
  }

  ghost predicate IsRootOf(root: real -> real) {
    forall x {:trigger root(x)} :: x >= 0.0 ==> IsRoot(root(x), x)
  }

  ghost function Operate(root: real -> real, code: nat, x: real, y: real): real {
    if code == 0 then x + y
    else if code == 1 then Mul(x, y)
    else if code == 2 then if y == 0.0 then 0.0 else x / y
    else if x < 0.0 then 0.0
    else root(x)
  }

  ghost function Value(root: real -> real, n: int): real
    decreases Index(n)
  {
    if n <= 0 then 0.0
    else if n == 1 then 1.0
    else
      var p := Unpair((n - 2) / 4);
      Operate(root, (n - 2) % 4, Value(root, p.0), Value(root, p.1))
  }

  lemma IndexValue(root: real -> real, x: int)
    ensures Value(root, Index(x)) == Value(root, x)
  {
  }

  lemma QuartersBack(q: nat, r: nat)
    requires r < 4
    ensures (4 * q + r) / 4 == q && (4 * q + r) % 4 == r
  {
  }

  lemma ApplyCode(op: Op, x: int, y: int)
    ensures Apply(op, x, y) >= 2 && (Apply(op, x, y) - 2) % 4 == Code(op)
    ensures Unpair((Apply(op, x, y) - 2) / 4) == (Index(x), Index(y))
  {
    var p := Pair(Index(x), Index(y));
    QuartersBack(p, Code(op));
    assert Apply(op, x, y) - 2 == 4 * p + Code(op);
    UnpairPair(Index(x), Index(y));
  }

  lemma ApplyIs(root: real -> real, op: Op, x: int, y: int)
    ensures Value(root, Apply(op, x, y)) == Operate(root, Code(op), Value(root, x), Value(root, y))
  {
    ApplyCode(op, x, y);
    IndexValue(root, x);
    IndexValue(root, y);
  }

  // ---- An exact arithmetic ----

  /** `value` reads patterns that `apply` builds. */
  ghost predicate Evaluates(root: real -> real, apply: (Op, int, int) -> int, value: int -> real) {
    && value(0) == 0.0 && value(1) == 1.0
    && forall op, x, y {:trigger apply(op, x, y)} :: value(apply(op, x, y)) == Operate(root, Code(op), value(x), value(y))
  }

  ghost function Expressions(apply: (Op, int, int) -> int, value: int -> real): Arith {
    Arith(0, (x, y) => apply(Plus, x, y), (x, y) => apply(TimesOp, x, y), x => x, x => x, x => x, 0, 1, x => value(x) != 0.0,
          (x, y) => apply(Plus, x, y), (x, y) => apply(TimesOp, x, y), (x, y) => apply(Over, x, y), x => apply(Root, x, 0))
  }

  lemma SinglesExact(root: real -> real, apply: (Op, int, int) -> int, value: int -> real)
    requires Evaluates(root, apply, value)
    ensures ExactSingles(Expressions(apply, value), Reading(value, value, value))
  {
  }

  lemma SquaresExact(root: real -> real, apply: (Op, int, int) -> int, value: int -> real)
    requires Evaluates(root, apply, value)
    ensures ExactSquares(Expressions(apply, value), Reading(value, value, value))
  {
  }

  lemma ScalesExact(root: real -> real, apply: (Op, int, int) -> int, value: int -> real)
    requires IsRootOf(root) && Evaluates(root, apply, value)
    ensures ExactScales(Expressions(apply, value), Reading(value, value, value))
  {
  }

  lemma ExpressionsExact(root: real -> real, apply: (Op, int, int) -> int, value: int -> real)
    requires IsRootOf(root) && Evaluates(root, apply, value)
    ensures Exact(Expressions(apply, value), Reading(value, value, value))
  {
    SinglesExact(root, apply, value);
    SquaresExact(root, apply, value);
    ScalesExact(root, apply, value);
  }

  ghost function Applied(): (Op, int, int) -> int {
    (op, x, y) => Apply(op, x, y)
  }

  ghost function Valued(root: real -> real): int -> real {
    n => Value(root, n)
  }

  lemma ValueEvaluates(root: real -> real)
    ensures Evaluates(root, Applied(), Valued(root))
  {
    forall op, x: int, y: int {
      ApplyIs(root, op, x, y);
    }
  }

  /** Given a square root of the reals, all operations of one arithmetic are exact. */
  lemma ExactExists(root: real -> real)
    requires IsRootOf(root)
    ensures exists ar, r :: Exact(ar, r)
  {
    ValueEvaluates(root);
    ExpressionsExact(root, Applied(), Valued(root));
    assert Exact(Expressions(Applied(), Valued(root)), Reading(Valued(root), Valued(root), Valued(root)));
  }
}
