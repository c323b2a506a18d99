/** The expression tree `Node`: its three kinds, evaluation as a fold over
    the tree, and the cost heuristic (the table of known cheap values first,
    the structure of the tree after). */
module Expressions {
  import opened Arithmetic

  /** Unary operators by index: 0 `!`, 1 `!!`, 2 sub-factorial, 3 square root. */
  datatype UnaryOp = Factorial | DoubleFactorial | SubFactorial | SquareRootOp

  /** Binary operators by index into "+-*^". */
  datatype BinaryOp = Add | Subtract | Multiply | Power

  /** A node owns its children: no sharing and no cycles. */
  datatype Node =
    | Terminal(value: int)
    | Unary(uop: UnaryOp, child: Node)
    | Binary(bop: BinaryOp, lhs: Node, rhs: Node)

  /** The entries of `knownCosts`. The table lists 8 and 15 twice, with the
      same cost each time, so the map holds each key once. */
  const KnownCosts: map<int, int> := map[
    0 := 0, 1 := 1, 2 := 2, 3 := 3, 4 := 4, 5 := 5, 6 := 3, 8 := 4,
    15 := 5, 48 := 3, 720 := 3, 71 := 4, 945 := 4, 44 := 5, 42 := 6,
    729 := 6, 27 := 6, 105 := 4, 216 := 6]

  function ApplyUnary(op: UnaryOp, z: int): int {
    match op
    case Factorial => Fact(z)
    case DoubleFactorial => DoubleFact(z)
    case SubFactorial => SubFact(z)
    case SquareRootOp => SquareRoot(z)
  }

  /** The four entries of `binaryFunctions`. */
  function ApplyBinary(op: BinaryOp, a: int, b: int): int {
    match op
    case Add => a + b
    case Subtract => a - b
    case Multiply => a * b
    case Power => Arithmetic.Power(a, b)
  }

  /** `Node::Eval`: a Terminal is its value, an operator node applies its
      operator to the values of its children. A Unary node never evaluates
      to a negative number, and a factorial-family node gives the invalid
      result 0 exactly when its argument is outside 0..11, or is 0 or 1
      under sub-factorial. */
  function Eval(n: Node): (r: int)
    ensures n.Unary? ==> r >= 0
    ensures n.Unary? && n.uop != SquareRootOp ==>
      (r == Invalid <==> !InDomain(Eval(n.child)) || (n.uop == SubFactorial && Eval(n.child) <= 1))
  {
    match n
    case Terminal(v) => v
    case Unary(op, c) => ApplyUnary(op, Eval(c))
    case Binary(op, l, r) => ApplyBinary(op, Eval(l), Eval(r))
  }

  /** `Node::Cost`: the table entry of the node's value when there is one,
      otherwise a Terminal costs its value, a Unary node its child's cost and
      a Binary node the sum of its children's costs. No table price exceeds
      its value, and with no negative leaf no cost is negative. */
  function Cost(n: Node): (r: int)
    ensures Eval(n) in KnownCosts ==> 0 <= r <= Eval(n)
    ensures LeavesAtLeast(n, 0) ==> r >= 0
  {
    var v := Eval(n);
    if v in KnownCosts then KnownCosts[v]
    else match n
      case Terminal(x) => x
      case Unary(_, c) => Cost(c)
      case Binary(_, l, r) => Cost(l) + Cost(r)
  }

  // ---------------------------------------------------------------------
  // Shape of a tree

  function Depth(n: Node): nat {
    match n
    case Terminal(_) => 0
    case Unary(_, c) => 1 + Depth(c)
    case Binary(_, l, r) => 1 + (if Depth(l) < Depth(r) then Depth(r) else Depth(l))
  }

  /** The leaf values, left to right. */
  function Leaves(n: Node): seq<int> {
    match n
    case Terminal(v) => [v]
    case Unary(_, c) => Leaves(c)
    case Binary(_, l, r) => Leaves(l) + Leaves(r)
  }

  function Sum(s: seq<int>): int {
    if s == [] then 0 else s[0] + Sum(s[1..])
  }

  lemma {:induction false} SumConcat(a: seq<int>, b: seq<int>)
    ensures Sum(a + b) == Sum(a) + Sum(b)
  {
    if a != [] {
      assert (a + b)[0] == a[0];
      assert (a + b)[1..] == a[1..] + b;
      SumConcat(a[1..], b);
    } else {
      assert a + b == b;
    }
  }

  function LeafCount(n: Node): (r: nat)
    ensures r >= 1
  {
    match n
    case Terminal(_) => 1
    case Unary(_, c) => LeafCount(c)
    case Binary(_, l, r) => LeafCount(l) + LeafCount(r)
  }

  /** Every leaf value is at least `lo`. */
  predicate LeavesAtLeast(n: Node, lo: int) {
    match n
    case Terminal(v) => v >= lo
    case Unary(_, c) => LeavesAtLeast(c, lo)
    case Binary(_, l, r) => LeavesAtLeast(l, lo) && LeavesAtLeast(r, lo)
  }

  /** Every leaf value is one of `values`. */
  predicate LeavesAmong(n: Node, values: seq<int>) {
    match n
    case Terminal(v) => v in values
    case Unary(_, c) => LeavesAmong(c, values)
    case Binary(_, l, r) => LeavesAmong(l, values) && LeavesAmong(r, values)
  }

  // ---------------------------------------------------------------------
  // Properties of the cost

  /** With leaves of at least 1, the cost is 0 exactly when the value is 0:
      an operator applied to zero-valued children only ever gives 0 or 1,
      which the table prices at 0 and 1. */
  lemma {:induction false} CostZeroIffValueZero(n: Node)
    requires LeavesAtLeast(n, 1)
    ensures Cost(n) >= 0
    ensures Cost(n) == 0 <==> Eval(n) == 0
  {
    match n
    case Terminal(v) =>
    case Unary(op, c) =>
      CostZeroIffValueZero(c);
      if Eval(c) == 0 {
        assert SubFact(0) == 0;
        assert Eval(n) in {0, 1};
      }
    case Binary(op, l, r) =>
      CostZeroIffValueZero(l);
      CostZeroIffValueZero(r);
      if Eval(l) == 0 && Eval(r) == 0 {
        assert Eval(n) in {0, 1};
      }
  }

  /** A tree whose leaves are table values of cost at most 6 (every value
      in `terminals` is one) costs at least 0 and at most 6 per leaf. */
  lemma {:induction false} CostAtMostSixPerLeaf(n: Node, values: seq<int>)
    requires forall v | v in values :: v >= 1 && v in KnownCosts && KnownCosts[v] <= 6
    requires LeavesAmong(n, values)
    ensures 0 <= Cost(n) <= 6 * LeafCount(n)
  {
    match n
    case Terminal(v) =>
    case Unary(op, c) =>
      CostAtMostSixPerLeaf(c, values);
    case Binary(op, l, r) =>
      CostAtMostSixPerLeaf(l, values);
      CostAtMostSixPerLeaf(r, values);
  }

  /** The search accepts only value 105, which the table prices at 4: every
      accepted tree costs exactly 4, so the filter `cost <= 20` never
      rejects one. */
  lemma TargetCostsFour(n: Node)
    requires Eval(n) == 105
    ensures Cost(n) == 4
  {
  }

  // ---------------------------------------------------------------------
  // Evaluation through the memo tables

  /** `Node::Eval` as the program runs it: the factorial family goes
      through the global caches. Memoisation never changes a value. */
  method EvalWith(memo: Memo, n: Node) returns (v: int)
    requires memo.Valid()
    modifies memo
    ensures memo.Valid()
    ensures old(memo.factorialCache).Keys <= memo.factorialCache.Keys
    ensures old(memo.doubleFactorialCache).Keys <= memo.doubleFactorialCache.Keys
    ensures v == Eval(n)
    decreases n
  {
    match n
    case Terminal(x) =>
      v := x;
    case Unary(op, c) =>
      var z := EvalWith(memo, c);
      match op {
        case Factorial =>
          v := memo.Factorial(z);
        case DoubleFactorial =>
          v := memo.DoubleFactorial(z);
        case SubFactorial =>
          v := memo.SubFactorial(z);
        case SquareRootOp =>
          v := SquareRoot(z);
      }
    case Binary(op, l, r) =>
      var a := EvalWith(memo, l);
      var b := EvalWith(memo, r);
      v := ApplyBinary(op, a, b);
  }

  /** `Node::Cost` as the program runs it, evaluating through the caches. */
  method CostWith(memo: Memo, n: Node) returns (c: int)
    requires memo.Valid()
    modifies memo
    ensures memo.Valid()
    ensures old(memo.factorialCache).Keys <= memo.factorialCache.Keys
    ensures old(memo.doubleFactorialCache).Keys <= memo.doubleFactorialCache.Keys
    ensures c == Cost(n)
    decreases n
  {
    var v := EvalWith(memo, n);
    if v in KnownCosts {
      c := KnownCosts[v];
    } else {
      match n
      case Terminal(x) =>
        c := v;
      case Unary(_, ch) =>
        c := CostWith(memo, ch);
      case Binary(_, l, r) =>
        var a := CostWith(memo, l);
        var b := CostWith(memo, r);
        c := a + b;
    }
  }
}
