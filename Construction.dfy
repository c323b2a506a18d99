/** The random constructor `Node(price, maxDepth, depth)`. The generator is
    an explicit stream of draws (the outputs of `random()`, each a natural
    number); construction fails only when the stream runs out. `*price` is
    passed in and the decremented value handed back. */
module Construction {
  import opened Arithmetic
  import opened Expressions

  datatype Option<T> = None | Some(value: T)

  /** The values of `terminals`, in the order of the source table. */
  const Terminals: seq<int> := [1, 2, 3, 4, 5, 6, 8, 15, 42, 44, 48, 71, 216, 105, 720, 729, 945]

  function UnaryOpAt(i: nat): UnaryOp
    requires i < 4
  {
    if i == 0 then Factorial
    else if i == 1 then DoubleFactorial
    else if i == 2 then SubFactorial
    else SquareRootOp
  }

  function BinaryOpAt(i: nat): BinaryOp
    requires i < 4
  {
    if i == 0 then Add
    else if i == 1 then Subtract
    else if i == 2 then Multiply
    else Power
  }

  /** The retry condition of a Unary node: a Terminal child above 9 or
      below 3, or the Terminal 3 under `!!`. */
  predicate UnaryRejects(op: UnaryOp, child: Node) {
    child.Terminal? &&
    (child.value > 9 || child.value < 3 || (child.value == 3 && op == DoubleFactorial))
  }

  /** Both children of a Binary node from one attempt. `lhsField` is what
      reading `lhs->value` yields: the value of a Terminal, and for an
      operator node a field the constructor never set. */
  datatype Operands = Operands(lhs: Node, rhs: Node, lhsField: int)

  /** The retry condition of a Binary node. */
  predicate BinaryRejects(op: BinaryOp, o: Operands) {
    (o.rhs.Terminal? && op == Power && (o.lhsField == 1 || o.rhs.value == 1)) ||
    (o.rhs.Terminal? && o.rhs.value == 0)
  }

  /** The shape every constructed tree has: no retry condition holds at any
      node, reading the `lhs->value` guard only where lhs is a Terminal. */
  predicate Admissible(n: Node) {
    match n
    case Terminal(_) => true
    case Unary(op, c) => !UnaryRejects(op, c) && Admissible(c)
    case Binary(op, l, r) =>
      !(r.Terminal? && r.value == 0) &&
      !(op == Power && r.Terminal? && (r.value == 1 || (l.Terminal? && l.value == 1))) &&
      Admissible(l) && Admissible(r)
  }

  /** What a subtree built at `depth` satisfies. */
  predicate Built(n: Node, maxDepth: nat, depth: nat) {
    Depth(n) <= maxDepth - depth && LeavesAmong(n, Terminals) && LeavesAtLeast(n, 1) && Admissible(n)
  }

  /** Every value in `terminals` is at least 1 and on the `knownCosts`
      table at a price of at most 6, which is what CostAtMostSixPerLeaf
      asks of the leaves. */
  lemma TerminalsPriced()
    ensures forall v | v in Terminals :: v >= 1 && v in KnownCosts && KnownCosts[v] <= 6
  {
  }

  /** A constructed tree costs at most 6 per leaf. */
  lemma BuiltCostAtMostSixPerLeaf(n: Node, maxDepth: nat, depth: nat)
    requires Built(n, maxDepth, depth)
    ensures 0 <= Cost(n) <= 6 * LeafCount(n)
  {
    TerminalsPriced();
    CostAtMostSixPerLeaf(n, Terminals);
  }

  lemma {:induction false} SumOfTerminals(s: seq<int>)
    requires forall v | v in s :: v in Terminals
    ensures Sum(s) >= |s|
  {
    if s != [] {
      assert s[0] in s;
      assert forall v | v in s[1..] :: v in s;
      SumOfTerminals(s[1..]);
    }
  }

  /** Appending what a later attempt created keeps the accounting. */
  lemma Accumulate(before: seq<int>, added: seq<int>)
    requires forall v | v in before :: v in Terminals
    requires forall v | v in added :: v in Terminals
    ensures forall v | v in before + added :: v in Terminals
    ensures Sum(before + added) == Sum(before) + Sum(added) >= Sum(added)
  {
    SumConcat(before, added);
    SumOfTerminals(before);
  }

  /** `new Node(price, maxDepth, depth)`. Draws a kind (never a Terminal at
      depth 0 unless depth 0 is the maximum), then a Terminal value, or an
      operator and children rebuilt until no retry condition holds.
      `created` lists every Terminal value drawn, kept or discarded:
      price drops by exactly their sum. */
  method Build(draws: seq<nat>, price: int, maxDepth: nat, depth: nat)
    returns (node: Option<Node>, rest: seq<nat>, price': int, ghost created: seq<int>)
    requires depth <= maxDepth
    ensures node.Some? ==> |rest| < |draws|
    ensures node.None? ==> rest == []
    ensures forall v | v in created :: v in Terminals
    ensures price' == price - Sum(created) && price' <= price
    ensures node.Some? ==> Built(node.value, maxDepth, depth)
    ensures node.Some? && depth == 0 && maxDepth > 0 ==> !node.value.Terminal?
    ensures node.Some? ==> price' <= price - Sum(Leaves(node.value))
    decreases maxDepth - depth, 1
  {
    var s := draws;
    if s == [] {
      return None, [], price, [];
    }
    var r := s[0] % 3;
    s := s[1..];
    if depth == 0 && r == 0 {
      // prevent root literals
      if s == [] {
        return None, [], price, [];
      }
      r := 1 + s[0] % 2;
      s := s[1..];
    }
    if s == [] {
      return None, [], price, [];
    }
    var pick := s[0];
    s := s[1..];
    if depth == maxDepth || r == 0 {
      var v := Terminals[pick % |Terminals|];
      created := [v];
      node, rest, price' := Some(Terminal(v)), s, price - v;
      assert Sum(created) == v;
    } else if r == 1 {
      var op := UnaryOpAt(pick % 4);
      var child, s', p', c' := Build(s, price, maxDepth, depth + 1);
      s, price', created := s', p', c';
      while child.Some? && UnaryRejects(op, child.value)
        invariant |s| < |draws|
        invariant child.None? ==> s == []
        invariant forall v | v in created :: v in Terminals
        invariant price' == price - Sum(created)
        invariant child.Some? ==> Built(child.value, maxDepth, depth + 1)
        invariant child.Some? ==> Sum(Leaves(child.value)) <= Sum(created)
        decreases |s| + (if child.Some? then 1 else 0)
      {
        child, s', p', c' := Build(s, price', maxDepth, depth + 1);
        Accumulate(created, c');
        s, price', created := s', p', created + c';
      }
      SumOfTerminals(created);
      if child.None? {
        return None, [], price', created;
      }
      node, rest := Some(Unary(op, child.value)), s;
    } else {
      var op := BinaryOpAt(pick % 4);
      var pair, s', p', c' := BuildOperands(s, price, maxDepth, depth + 1);
      s, price', created := s', p', c';
      while pair.Some? && BinaryRejects(op, pair.value)
        invariant |s| < |draws|
        invariant pair.None? ==> s == []
        invariant forall v | v in created :: v in Terminals
        invariant price' == price - Sum(created)
        invariant pair.Some? ==> Built(pair.value.lhs, maxDepth, depth + 1) && Built(pair.value.rhs, maxDepth, depth + 1)
        invariant pair.Some? ==> pair.value.lhs.Terminal? ==> pair.value.lhsField == pair.value.lhs.value
        invariant pair.Some? ==> Sum(Leaves(pair.value.lhs)) + Sum(Leaves(pair.value.rhs)) <= Sum(created)
        decreases |s| + (if pair.Some? then 1 else 0)
      {
        pair, s', p', c' := BuildOperands(s, price', maxDepth, depth + 1);
        Accumulate(created, c');
        s, price', created := s', p', created + c';
      }
      SumOfTerminals(created);
      if pair.None? {
        return None, [], price', created;
      }
      var t := Binary(op, pair.value.lhs, pair.value.rhs);
      SumConcat(Leaves(pair.value.lhs), Leaves(pair.value.rhs));
      node, rest := Some(t), s;
    }
  }

  /** One pass of the Binary do-body: a fresh lhs, then a fresh rhs. */
  method BuildOperands(draws: seq<nat>, price: int, maxDepth: nat, depth: nat)
    returns (pair: Option<Operands>, rest: seq<nat>, price': int, ghost created: seq<int>)
    requires 1 <= depth <= maxDepth
    ensures pair.Some? ==> |rest| < |draws|
    ensures pair.None? ==> rest == []
    ensures forall v | v in created :: v in Terminals
    ensures price' == price - Sum(created)
    ensures pair.Some? ==> Built(pair.value.lhs, maxDepth, depth) && Built(pair.value.rhs, maxDepth, depth)
    ensures pair.Some? ==> pair.value.lhs.Terminal? ==> pair.value.lhsField == pair.value.lhs.value
    ensures pair.Some? ==> Sum(Leaves(pair.value.lhs)) + Sum(Leaves(pair.value.rhs)) <= Sum(created)
    decreases maxDepth - depth + 1, 0
  {
    var lhs, s1, p1, c1 := Build(draws, price, maxDepth, depth);
    if lhs.None? {
      return None, [], p1, c1;
    }
    var rhs, s2, p2, c2 := Build(s1, p1, maxDepth, depth);
    Accumulate(c1, c2);
    SumConcat(c1, c2);
    SumOfTerminals(c1);
    SumOfTerminals(c2);
    created := c1 + c2;
    if rhs.None? {
      return None, [], p2, created;
    }
    var field: int;
    if lhs.value.Terminal? {
      field := lhs.value.value;
    } else {
      field :| true;
    }
    pair, rest, price' := Some(Operands(lhs.value, rhs.value, field)), s2, p2;
  }

  /** At every Unary node whose operand is a Terminal, `!`, `!!` and
      sub-factorial give a valid (nonzero) result. */
  predicate FactorialsOfTerminalsValid(n: Node) {
    match n
    case Terminal(_) => true
    case Unary(op, c) =>
      (c.Terminal? && op != SquareRootOp ==> Eval(n) != Invalid) && FactorialsOfTerminalsValid(c)
    case Binary(_, l, r) => FactorialsOfTerminalsValid(l) && FactorialsOfTerminalsValid(r)
  }

  /** What the Unary retry loop buys: in a constructed tree no `!`, `!!` or
      sub-factorial is applied to a Terminal outside the arguments where it
      is valid (15!, 1 and 2 under sub-factorial would all give 0). */
  lemma {:induction false} BuiltFactorialsOfTerminalsValid(n: Node)
    requires Admissible(n) && LeavesAmong(n, Terminals)
    ensures FactorialsOfTerminalsValid(n)
  {
    match n
    case Terminal(_) =>
    case Unary(_, c) =>
      BuiltFactorialsOfTerminalsValid(c);
    case Binary(_, l, r) =>
      BuiltFactorialsOfTerminalsValid(l);
      BuiltFactorialsOfTerminalsValid(r);
  }
}
