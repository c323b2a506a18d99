/** `Node::Print`, as a function that returns the text the program writes:
    small and special values as a bare numeral, otherwise fully
    parenthesised infix for Binary nodes and postfix or prefix marks for
    Unary nodes, with an optional `{=value}` after each operator node. */
module Rendering {
  import opened Arithmetic
  import opened Expressions

  /** The characters of `binaryOps`, indexed like `binaryFunctions`. */
  const BinaryOps: string := "+-*^"

  function Symbol(op: BinaryOp): char {
    match op
    case Add => BinaryOps[0]
    case Subtract => BinaryOps[1]
    case Multiply => BinaryOps[2]
    case Power => BinaryOps[3]
  }

  predicate IsDigit(c: char) {
    '0' <= c <= '9'
  }

  function DigitChar(d: nat): (c: char)
    requires d < 10
    ensures IsDigit(c)
  {
    (d + '0' as int) as char
  }

  function DigitValue(c: char): int {
    c as int - '0' as int
  }

  /** Decimal digits of a natural number, most significant first. */
  function NatToString(n: nat): (s: string)
    ensures |s| >= 1
    ensures forall i | 0 <= i < |s| :: IsDigit(s[i])
  {
    if n < 10 then [DigitChar(n)] else NatToString(n / 10) + [DigitChar(n % 10)]
  }

  /** What `cout << i` writes for an int: an optional minus sign, then
      digits. */
  function IntToString(i: int): (s: string)
    ensures |s| >= 1 && (s[0] == '-' || IsDigit(s[0]))
  {
    if i < 0 then "-" + NatToString(-i) else NatToString(i)
  }

  /** Reading a numeral back: the partner of IntToString. */
  function ParseNat(s: string): int {
    if s == [] then 0 else 10 * ParseNat(s[..|s| - 1]) + DigitValue(s[|s| - 1])
  }

  function ParseInt(s: string): int {
    if |s| > 0 && s[0] == '-' then -ParseNat(s[1..]) else ParseNat(s)
  }

  /** The value annotation of diagnostic mode. */
  function Annotation(diagnostic: bool, v: int): string {
    if diagnostic then "{=" + IntToString(v) + "}" else ""
  }

  /** Values printed as a bare numeral whatever the shape of the tree. */
  predicate PrintedAsNumber(v: int) {
    (0 <= v <= 5) || v == 64 || v == 720
  }

  /** `Node::Print(diagnostic)`. The square root case (index 3) writes the
      parentheses but not its operand. The text is never empty, and it
      opens with a parenthesis exactly for an operator node whose value is
      not written as a bare numeral. */
  function Print(n: Node, diagnostic: bool): (s: string)
    ensures |s| >= 1
    ensures s[0] == '(' <==> !n.Terminal? && !PrintedAsNumber(Eval(n))
  {
    var v := Eval(n);
    if PrintedAsNumber(v) then IntToString(v)
    else match n
      case Terminal(_) => IntToString(v)
      case Unary(op, c) =>
        var inner := match op
          case Factorial => Print(c, diagnostic) + "!"
          case DoubleFactorial => Print(c, diagnostic) + "!!"
          case SubFactorial => "!" + Print(c, diagnostic)
          case SquareRootOp => "";
        Enclose(inner, diagnostic, v)
      case Binary(op, l, r) =>
        Enclose(Print(l, diagnostic) + [Symbol(op)] + Print(r, diagnostic), diagnostic, v)
  }

  /** An operator node's text: parenthesised, then annotated. */
  function Enclose(inner: string, diagnostic: bool, v: int): string {
    "(" + inner + ")" + Annotation(diagnostic, v)
  }

  // ---------------------------------------------------------------------
  // Numerals

  lemma {:induction false} NatRoundTrip(n: nat)
    ensures ParseNat(NatToString(n)) == n
  {
    var s := NatToString(n);
    if n >= 10 {
      NatRoundTrip(n / 10);
      assert s[..|s| - 1] == NatToString(n / 10);
    }
  }

  /** Reading back what `cout << i` wrote gives i. */
  lemma IntRoundTrip(i: int)
    ensures ParseInt(IntToString(i)) == i
  {
    if i < 0 {
      var s := "-" + NatToString(-i);
      assert s[1..] == NatToString(-i);
      NatRoundTrip(-i);
    } else {
      NatRoundTrip(i);
      assert IsDigit(NatToString(i)[0]);
    }
  }

  /** A Terminal, and any tree whose value is 0..5, 64 or 720, prints as the
      numeral of its value. */
  lemma PrintedNumeralReadsBack(n: Node, diagnostic: bool)
    requires n.Terminal? || PrintedAsNumber(Eval(n))
    ensures ParseInt(Print(n, diagnostic)) == Eval(n)
  {
    IntRoundTrip(Eval(n));
  }

  // ---------------------------------------------------------------------
  // Parentheses

  function Count(c: char, s: string): nat {
    if s == [] then 0 else (if s[0] == c then 1 else 0) + Count(c, s[1..])
  }

  lemma {:induction false} CountConcat(c: char, a: string, b: string)
    ensures Count(c, a + b) == Count(c, a) + Count(c, b)
  {
    if a == [] {
      assert a + b == b;
    } else {
      assert (a + b)[0] == a[0];
      assert (a + b)[1..] == a[1..] + b;
      CountConcat(c, a[1..], b);
    }
  }

  lemma {:induction false} CountAbsent(c: char, s: string)
    requires forall i | 0 <= i < |s| :: s[i] != c
    ensures Count(c, s) == 0
  {
    if s != [] {
      CountAbsent(c, s[1..]);
    }
  }

  /** Numerals and annotations hold no parenthesis. */
  lemma NumeralHasNoParentheses(i: int)
    ensures Count('(', IntToString(i)) == 0 && Count(')', IntToString(i)) == 0
  {
    CountAbsent('(', IntToString(i));
    CountAbsent(')', IntToString(i));
  }

  lemma AnnotationHasNoParentheses(diagnostic: bool, v: int)
    ensures Count('(', Annotation(diagnostic, v)) == 0 && Count(')', Annotation(diagnostic, v)) == 0
  {
    CountAbsent('(', Annotation(diagnostic, v));
    CountAbsent(')', Annotation(diagnostic, v));
  }

  predicate Balanced(s: string) {
    Count('(', s) == Count(')', s)
  }

  lemma ConcatBalanced(a: string, b: string)
    requires Balanced(a) && Balanced(b)
    ensures Balanced(a + b)
  {
    CountConcat('(', a, b);
    CountConcat(')', a, b);
  }

  lemma EncloseBalanced(inner: string, diagnostic: bool, v: int)
    requires Balanced(inner)
    ensures Balanced(Enclose(inner, diagnostic, v))
  {
    AnnotationHasNoParentheses(diagnostic, v);
    assert Balanced("(" + ")") by {
      CountConcat('(', "(", ")");
      CountConcat(')', "(", ")");
    }
    var a := Annotation(diagnostic, v);
    CountConcat('(', "(", inner);
    CountConcat(')', "(", inner);
    CountConcat('(', "(" + inner, ")");
    CountConcat(')', "(" + inner, ")");
    CountConcat('(', "(" + inner + ")", a);
    CountConcat(')', "(" + inner + ")", a);
  }

  lemma MarkBalanced(s: string)
    requires forall i | 0 <= i < |s| :: s[i] in "!+-*^"
    ensures Balanced(s)
  {
    CountAbsent('(', s);
    CountAbsent(')', s);
  }

  /** Every printed expression opens as many parentheses as it closes. */
  lemma {:induction false} PrintBalanced(n: Node, diagnostic: bool)
    ensures Balanced(Print(n, diagnostic))
  {
    var v := Eval(n);
    NumeralHasNoParentheses(v);
    if !PrintedAsNumber(v) {
      match n
      case Terminal(_) =>
      case Unary(op, c) =>
        PrintBalanced(c, diagnostic);
        var p := Print(c, diagnostic);
        MarkBalanced("!");
        MarkBalanced("!!");
        MarkBalanced("");
        match op {
          case Factorial => ConcatBalanced(p, "!");
          case DoubleFactorial => ConcatBalanced(p, "!!");
          case SubFactorial => ConcatBalanced("!", p);
          case SquareRootOp =>
        }
        var inner := match op
          case Factorial => p + "!"
          case DoubleFactorial => p + "!!"
          case SubFactorial => "!" + p
          case SquareRootOp => "";
        EncloseBalanced(inner, diagnostic, v);
      case Binary(op, l, r) =>
        PrintBalanced(l, diagnostic);
        PrintBalanced(r, diagnostic);
        var pl, pr := Print(l, diagnostic), Print(r, diagnostic);
        MarkBalanced([Symbol(op)]);
        ConcatBalanced(pl, [Symbol(op)]);
        ConcatBalanced(pl + [Symbol(op)], pr);
        EncloseBalanced(pl + [Symbol(op)] + pr, diagnostic, v);
    }
  }

  /** The square-root quirk: since its operand is not written, the text no
      longer determines the value. The roots of 36 and 49 differ, yet both
      print as `()`, and an expression containing one cannot be read back. */
  lemma SquareRootTextLosesValue()
    ensures Eval(Unary(SquareRootOp, Terminal(36))) == 6
    ensures Eval(Unary(SquareRootOp, Terminal(49))) == 7
    ensures Print(Unary(SquareRootOp, Terminal(36)), false) == Print(Unary(SquareRootOp, Terminal(49)), false) == "()"
  {
    SquareRootOfSquare(6);
    SquareRootOfSquare(7);
  }

  /** An example: `(3+4)` for the sum of the Terminals 3 and 4. */
  lemma PrintSum()
    ensures Print(Binary(Add, Terminal(3), Terminal(4)), false) == "(3+4)"
    ensures Print(Binary(Add, Terminal(3), Terminal(4)), true) == "(3+4){=7}"
  {
  }
}
