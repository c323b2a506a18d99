/** `Node::Simplify`, a rewrite that turns operator nodes into Terminals.
    The program never calls it. As written it gives the new Terminal the
    value of an OPERAND, not of the node, so it changes what a tree
    evaluates to; SimplifyKeepingValue is the rewrite with the node's own
    value, which keeps it. */
module Simplification {
  import opened Expressions

  /** Operand values for which a Unary node is replaced. */
  predicate CheapUnaryValue(z: int) {
    (0 <= z <= 5) || z == 48 || z == 720
  }

  /** Operand values for which a Binary node is replaced. */
  predicate CheapBinaryValue(u: int) {
    0 <= u <= 5
  }

  /** `Node::Simplify` as written. Children first; then a Unary node whose
      simplified child evaluates to a cheap value becomes a Terminal holding
      that child's value; a Binary node becomes a Terminal holding the left
      child's value when that is 0..5, overwritten by the right child's value
      when that is 0..5. */
  function Simplify(n: Node): (r: Node)
    ensures Depth(r) <= Depth(n)
    ensures LeafCount(r) <= LeafCount(n)
  {
    match n
    case Terminal(_) => n
    case Unary(op, c) =>
      var c' := Simplify(c);
      var z := Eval(c');
      if CheapUnaryValue(z) then Terminal(z) else Unary(op, c')
    case Binary(op, l, r) =>
      var l', r' := Simplify(l), Simplify(r);
      var u, v := Eval(l'), Eval(r');
      if CheapBinaryValue(v) then Terminal(v)
      else if CheapBinaryValue(u) then Terminal(u)
      else Binary(op, l', r')
  }

  /** What Simplify leaves behind: no Unary node has a child of cheap value
      and no Binary node has a child of value 0..5. */
  predicate OperandsNotCheap(n: Node) {
    match n
    case Terminal(_) => true
    case Unary(_, c) => !CheapUnaryValue(Eval(c)) && OperandsNotCheap(c)
    case Binary(_, l, r) =>
      !CheapBinaryValue(Eval(l)) && !CheapBinaryValue(Eval(r)) &&
      OperandsNotCheap(l) && OperandsNotCheap(r)
  }

  lemma {:induction false} SimplifyLeavesNoCheapOperand(n: Node)
    ensures OperandsNotCheap(Simplify(n))
  {
    match n
    case Terminal(_) =>
    case Unary(_, c) =>
      SimplifyLeavesNoCheapOperand(c);
    case Binary(_, l, r) =>
      SimplifyLeavesNoCheapOperand(l);
      SimplifyLeavesNoCheapOperand(r);
  }

  /** A tree that Simplify leaves behind is not changed by it again. */
  lemma {:induction false} SimplifyFixesSimplified(n: Node)
    requires OperandsNotCheap(n)
    ensures Simplify(n) == n
  {
    match n
    case Terminal(_) =>
    case Unary(_, c) =>
      SimplifyFixesSimplified(c);
    case Binary(_, l, r) =>
      SimplifyFixesSimplified(l);
      SimplifyFixesSimplified(r);
  }

  /** Simplify is idempotent. */
  lemma SimplifyIdempotent(n: Node)
    ensures Simplify(Simplify(n)) == Simplify(n)
  {
    SimplifyLeavesNoCheapOperand(n);
    SimplifyFixesSimplified(Simplify(n));
  }

  /** As written, Simplify changes values: 3! becomes 3, 3 + 4 becomes 4. */
  lemma SimplifyLosesValue()
    ensures Eval(Unary(Factorial, Terminal(3))) == 6
    ensures Simplify(Unary(Factorial, Terminal(3))) == Terminal(3)
    ensures Eval(Binary(Add, Terminal(3), Terminal(4))) == 7
    ensures Simplify(Binary(Add, Terminal(3), Terminal(4))) == Terminal(4)
  {
  }

  // ---------------------------------------------------------------------
  // The value-preserving rewrite

  /** Simplify with the node's own value: after simplifying the children, a
      Unary node whose value is 0..5, 48 or 720 and a Binary node whose
      value is 0..5 become a Terminal of that value. */
  function SimplifyKeepingValue(n: Node): (r: Node)
    ensures Eval(r) == Eval(n)
    ensures Depth(r) <= Depth(n)
  {
    match n
    case Terminal(_) => n
    case Unary(op, c) =>
      var c' := SimplifyKeepingValue(c);
      var z := ApplyUnary(op, Eval(c'));
      if CheapUnaryValue(z) then Terminal(z) else Unary(op, c')
    case Binary(op, l, r) =>
      var l', r' := SimplifyKeepingValue(l), SimplifyKeepingValue(r);
      var w := ApplyBinary(op, Eval(l'), Eval(r'));
      if CheapBinaryValue(w) then Terminal(w) else Binary(op, l', r')
  }

  /** What SimplifyKeepingValue leaves behind: no operator node of cheap
      value. */
  predicate NoCheapOperatorNode(n: Node) {
    match n
    case Terminal(_) => true
    case Unary(_, c) => !CheapUnaryValue(Eval(n)) && NoCheapOperatorNode(c)
    case Binary(_, l, r) => !CheapBinaryValue(Eval(n)) && NoCheapOperatorNode(l) && NoCheapOperatorNode(r)
  }

  lemma {:induction false} SimplifyKeepingValueLeavesNoCheapNode(n: Node)
    ensures NoCheapOperatorNode(SimplifyKeepingValue(n))
  {
    match n
    case Terminal(_) =>
    case Unary(_, c) =>
      SimplifyKeepingValueLeavesNoCheapNode(c);
    case Binary(_, l, r) =>
      SimplifyKeepingValueLeavesNoCheapNode(l);
      SimplifyKeepingValueLeavesNoCheapNode(r);
  }

  lemma {:induction false} SimplifyKeepingValueFixesSimplified(n: Node)
    requires NoCheapOperatorNode(n)
    ensures SimplifyKeepingValue(n) == n
  {
    match n
    case Terminal(_) =>
    case Unary(_, c) =>
      SimplifyKeepingValueFixesSimplified(c);
    case Binary(_, l, r) =>
      SimplifyKeepingValueFixesSimplified(l);
      SimplifyKeepingValueFixesSimplified(r);
  }

  /** The value-preserving rewrite is idempotent too. */
  lemma SimplifyKeepingValueIdempotent(n: Node)
    ensures SimplifyKeepingValue(SimplifyKeepingValue(n)) == SimplifyKeepingValue(n)
  {
    SimplifyKeepingValueLeavesNoCheapNode(n);
    SimplifyKeepingValueFixesSimplified(SimplifyKeepingValue(n));
  }
}
