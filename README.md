# Factorial2008 expression engine in Dafny

This project models the expression-tree engine of Factorial2008. The
program builds random arithmetic trees from a fixed set of terminals:
1, 2, 3, 4, 5, 6, 8, 15, 42, 44, 48, 71, 216, 105, 720, 729 and 945.

- Operators:
  - unary: `!`, `!!`, sub-factorial and square root;
  - binary: `+ - * ^`.
- Search: it evaluates each tree and reports every tree that evaluates to
  105 at a "cost" no worse than the best so far.

The modules follow the parts of `source.cpp`:

- `Arithmetic`:
  - `factorial`, `doubleFactorial` and `subFactorial` on the domain 0..11.
  - Outside the domain the result is the invalid value 0. `quiet_NaN()` of
    `int` is 0, and `_isnan` on an `int` is never true.
  - `pow` converted back to `int`, and the square root of the `Eval` switch.
  - The two global memo tables, as the class `Memo`. Its `Valid()` says that
    every cached entry holds the true value.
- `Expressions`:
  - The tree `Node` (Terminal, Unary, Binary) as a datatype that owns its
    children.
  - `Eval`, a fold over the tree.
  - `Cost`: the `knownCosts` entry of the node's value first. Otherwise a
    Terminal costs its value, a Unary node its child's cost, and a Binary
    node the sum of its children's costs.
  - `EvalWith` and `CostWith`, the same computations as the program runs
    them through the memo tables.
- `Rendering`: `Print` as a function returning the text written.
  - Values 0..5, 64 and 720 print as a bare numeral.
  - A Binary node prints as `(L op R)`.
  - A Unary node prints as `(L!)`, `(L!!)`, `(!L)`, or `()` for the square
    root, whose operand the source never prints.
  - Diagnostic mode appends `{=value}` after each operator node.
- `Simplification`: `Simplify` as written, and a value-preserving
  correction of it (see Findings).
- `Construction`: the random constructor `Node(price, maxDepth, depth)`.
  - The random generator is a finite stream of draws.
  - `*price` is passed in, and the decremented value comes back out.
  - Each rejection `do … while` loop is a `while` loop that rebuilds the
    child or both children.
- `Search`: the acceptance step of `main`, taken sequentially. A tree is
  reported when its value is 105, its cost is at most 20, and its cost is
  at most `lastCost`; `lastCost` then takes its cost.

105 is in `knownCosts` with cost 4. So every reported tree costs exactly 4,
and the `cost <= 20` filter never rejects one (`Expressions.TargetCostsFour`).

Details of the code that the model keeps:

- `subFactorial(0)` is `floor(1/e + 0.5) = 0`, although the empty set has
  one derangement.
- Only factorial and double factorial have a cache. Sub-factorial has none
  and goes through the factorial cache.
- The Binary retry guard reads `lhs->value` for any left child. That field
  is set only for Terminals. In the model the guard sees a Terminal's value,
  and an unconstrained value for an operator node.

## Model

| member | source | states |
|---|---|---|
| Arithmetic.Fact | source.cpp:45-58 | inside 0..11 the factorial is at least 1 and at least n; outside it the result is the invalid value 0 |
| Arithmetic.DoubleFact | source.cpp:67-81 | inside 0..11 the double factorial is at least 1 and at least n; outside it the result is 0 |
| Arithmetic.SubFact | source.cpp:60-65 | inside 0..11 the sub-factorial lies between 0 and n!; it is the invalid value 0 exactly outside 0..11 and at 0 and 1 |
| Arithmetic.KnownValues | source.cpp:45-81 | 0!..5! are 1, 1, 2, 6, 24, 120 and 11! = 39916800; 6!! = 48, 7!! = 105, 9!! = 945; sub-factorials of 0..5 are 0, 0, 1, 2, 9, 44; all three give 0 at -1 and at 12 |
| Arithmetic.DoubleFactorialsMakeFactorial | source.cpp:67-81 | on 1..11, n!! * (n-1)!! = n!, which ties the two tables to each other |
| Arithmetic.SubFactIsDerangementCount | source.cpp:60-65 | n!/e rounded half up is the number of derangements of n for 1..11, and 0 for n = 0 |
| Arithmetic.DerangementsAlternating | source.cpp:60-65 | the derangement numbers that sub-factorial reproduces satisfy D(n) = n D(n-1) + (-1)^n |
| Arithmetic.SubFactRecurrence | source.cpp:60-65 | the sub-factorial itself satisfies !n = n * !(n-1) + (-1)^n on 2..11 |
| Arithmetic.RoundingBounds | source.cpp:64 | the integer computation of sub-factorial is the floor of f / M_E + 1/2 |
| Arithmetic.SquareRoot | source.cpp:227-235 | the square root is never negative, and a nonzero result squares back to its operand (non-squares and negatives give 0) |
| Arithmetic.SquareRootOfSquare | source.cpp:227-235 | the square root of k*k is exactly k |
| Arithmetic.Power | source.cpp:90 | a negative exponent gives -1, 0 or 1; a positive base to a natural exponent gives at least 1 |
| Arithmetic.PowerNegativeIsTruncatedReciprocal | source.cpp:90 | for b < 0 and a != 0, the result is 1 / a^-b truncated toward zero, the conversion of the double `pow` returns to `int` |
| Arithmetic.PowerAddsExponents | source.cpp:90 | a^(b+c) = a^b * a^c for natural exponents |
| Arithmetic.PowerWithOne | source.cpp:90 | a^1 = a and 1^b = 1 for every b, the no-ops that construction rejects under `^` |
| Arithmetic.Memo.constructor | source.cpp:40 | both memo tables start empty and valid |
| Arithmetic.Memo.Factorial | source.cpp:45-58 | returns n! (0 outside 0..11) whatever the cache held; afterwards the cache holds exactly its old keys and 2..n, every entry its true value, closed downward; outside 0..11 nothing changes; the other cache is unchanged |
| Arithmetic.Memo.DoubleFactorial | source.cpp:67-81 | returns n!! (0 outside 0..11) whatever the cache held; afterwards the cache holds exactly its old keys and n, n-2, ... down to 2 or 3, every entry its true value; outside 0..11 nothing changes |
| Arithmetic.Memo.SubFactorial | source.cpp:60-65 | returns n!/e rounded half up, which is the derangement count for 1..11; it adds exactly 2..n to the factorial cache and leaves the double-factorial cache alone |
| Expressions.Eval | source.cpp:213-245 | a Unary node never evaluates negative; `!`, `!!` and sub-factorial give the invalid 0 exactly when the argument is outside 0..11, or is 0 or 1 under sub-factorial |
| Expressions.Cost | source.cpp:247-262 | a value on the `knownCosts` table costs between 0 and the value itself; with no negative leaf no tree costs less than 0 |
| Expressions.EvalWith | source.cpp:213-245 | evaluating through the memo tables gives the value of the pure fold `Eval`, keeps every cache entry true and never drops a cached key, so memoisation never changes a value |
| Expressions.CostWith | source.cpp:247-262 | computing the cost through the memo tables gives the pure `Cost`; the caches keep every key they had |
| Expressions.CostZeroIffValueZero | source.cpp:247-262 | with leaves of at least 1, the cost is never negative, and it is 0 exactly when the value is 0 |
| Expressions.CostAtMostSixPerLeaf | source.cpp:247-262 | a tree whose leaves are table values priced 1..6 costs between 0 and 6 per leaf |
| Expressions.TargetCostsFour | source.cpp:36 | every tree that evaluates to 105 costs 4 |
| Rendering.Print | source.cpp:264-316 | the text is never empty, and it opens with `(` exactly for an operator node whose value is not written as a bare numeral |
| Rendering.IntRoundTrip | source.cpp:269 | reading back the numeral `cout << v` writes gives v |
| Rendering.PrintedNumeralReadsBack | source.cpp:266-277 | a Terminal, or a tree whose value is 0..5, 64 or 720, prints as the numeral of its value |
| Rendering.PrintBalanced | source.cpp:264-316 | every printed expression, plain or diagnostic, has as many `(` as `)` |
| Rendering.SquareRootTextLosesValue | source.cpp:278-299 | the square roots of 36 and 49 (6 and 7) both print as `()`, so the printed text does not determine the value |
| Rendering.PrintSum | source.cpp:300-311 | the sum of the Terminals 3 and 4 prints as `(3+4)`, or as `(3+4){=7}` in diagnostic mode |
| Simplification.Simplify | source.cpp:111-147 | the rewrite never deepens a tree and never adds leaves |
| Simplification.SimplifyLeavesNoCheapOperand | source.cpp:111-147 | afterwards no Unary child evaluates to 0..5, 48 or 720, and no Binary child to 0..5 |
| Simplification.SimplifyFixesSimplified | source.cpp:111-147 | a tree in that form is left unchanged |
| Simplification.SimplifyIdempotent | source.cpp:111-147 | simplifying twice is simplifying once |
| Simplification.SimplifyLosesValue | source.cpp:113-146 | as written, `3!` (value 6) becomes the Terminal 3 and `(3+4)` (value 7) becomes the Terminal 4 |
| Simplification.SimplifyKeepingValue | source.cpp:111-147 | the corrected rewrite keeps the value of the tree and never deepens it |
| Simplification.SimplifyKeepingValueLeavesNoCheapNode | source.cpp:111-147 | after the corrected rewrite no operator node has a value it would replace |
| Simplification.SimplifyKeepingValueFixesSimplified | source.cpp:111-147 | the corrected rewrite leaves a tree in that form unchanged |
| Simplification.SimplifyKeepingValueIdempotent | source.cpp:111-147 | the corrected rewrite is idempotent |
| Construction.Build | source.cpp:149-205 | see the note below the table |
| Construction.BuildOperands | source.cpp:191-196 | one pass of the Binary loop body builds both children with the same guarantees, and reports what `lhs->value` reads when lhs is a Terminal |
| Construction.BuiltFactorialsOfTerminalsValid | source.cpp:175-184 | in every tree the retry loops admit, no `!`, `!!` or sub-factorial over a Terminal gives the invalid 0 |
| Construction.TerminalsPriced | source.cpp:95 | every value of `terminals` is at least 1 and on the `knownCosts` table at a price of at most 6 |
| Construction.BuiltCostAtMostSixPerLeaf | source.cpp:247-262 | every constructed tree costs between 0 and 6 per leaf |
| Construction.SumOfTerminals | source.cpp:95 | every value in `terminals` is at least 1, so the values drawn sum to at least their number |
| Search.Step | source.cpp:342-345 | a candidate is reported exactly when value 105, cost at most 20 and at most `lastCost` hold; `lastCost` then becomes its cost, and otherwise stays; it never rises |
| Search.ReplayReportsImprovements | source.cpp:331-351 | across attempts in sequence, every report has value 105 and cost at most 20; reported costs never rise; none exceeds the starting best; the best cost is that of the last report |
| Search.Run | source.cpp:331-351 | attempts in sequence, each building a tree with budget 13 and depth 10, report exactly what the fold of Step over the built trees reports, with non-increasing costs; the caches keep every key they had |
| Search.ReportedCostsAreFour | source.cpp:342-345 | every reported tree costs 4 |

What `Construction.Build` guarantees when the draws do not run out:

- the tree has depth at most `maxDepth - depth`;
- every leaf is a value of `terminals`;
- the root is never a Terminal when `maxDepth > 0`;
- no retry condition holds at any node;
- `*price` drops by exactly the sum of every Terminal drawn, including those
  in discarded children;
- so the final price is at most the start minus the leaves' sum.

## Left out

- The OpenMP parallel loop, the lock, the thread count, and the race on
  `lastCost` and the caches outside the lock. The attempts are run one after
  another.
- The infinite outer loop: `Search.Run` runs a given number of attempts.
- The `mt19937` generator. Its outputs are a finite stream of draws.
  Construction fails (`None`) when the stream runs out. The source instead
  keeps drawing forever.
- Construction.Build: its termination needs the finite stream of draws. The
  source's rejection loops are unbounded.
- Floating point:
  - M_E is the rational 2.718281828459045, and the rounding error of the
    double division is not modelled;
  - `sqrtf` on a `float` is an exact integer root, so float rounding above
    2^24 is not modelled;
  - `pow` is exact for non-negative exponents. A negative exponent gives
    the reciprocal truncated toward zero, and `pow(0, b)` for `b < 0` is 0
    here, where the C++ conversion of an infinity is undefined.
- Signed 32-bit overflow in `+ - * ^`. Dafny integers are unbounded.
- Console output: `Print` returns the text instead of writing it. Also left
  out: the startup printout of `subFactorial(1..11)` (the values are in
  `Arithmetic.SubFactIsDerangementCount`), the report line, and `getchar`.
- `new`/`delete` and the destructor. The tree is a datatype that owns its
  children.
- Simplification.Simplify is modelled on values. It returns the rewritten
  tree instead of changing `type`, `value`, `lhs` and `rhs` in place, and
  the subtrees the source deletes are simply not part of the result. For a
  Binary node the source deletes only the child whose value is 0..5. Any
  other child stays allocated until the destructor, unreachable through
  Eval, Cost and Print; the model drops it.
- `Print`, `Simplify` and `Cost` evaluate through the memo tables. Only
  `EvalWith` and `CostWith` model that. `Print` and `Simplify` use the
  pure `Eval`, which `Expressions.EvalWith` proves gives the same values.
- The unreachable `default` cases and an operator index outside 0..3. The
  kinds and operators are closed datatypes, so these cannot happen.

## Findings

| source | as written | input that shows it | evidently intended | confidence | as-written member | corrected member |
|---|---|---|---|---|---|---|
| source.cpp:111-147 | a simplified node becomes a Terminal holding the value of an operand: the child's value for a Unary node, and the left or right child's value for a Binary node | `3!` (value 6) becomes `3`; `(3+4)` (value 7) becomes `4` | a node whose own value is cheap becomes a Terminal of that value, so the tree keeps its value | medium; not executed (Simplify is never called by the program) | Simplification.SimplifyLosesValue | Simplification.SimplifyKeepingValue |
