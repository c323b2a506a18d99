/** The search of `main`, taken sequentially: build a tree from a budget of
    13 with depth at most 10, evaluate it, and report it when its value is
    105 and its cost is at most 20 and at most the best cost so far, which
    then becomes its cost. */
module Search {
  import opened Arithmetic
  import opened Expressions
  import opened Construction

  const Target: int := 105
  const CostCeiling: int := 20
  /** The budget `zeros` each attempt starts from. */
  const StartingPrice: int := 13
  const MaxDepth: nat := 10
  /** `numeric_limits<int>::max()`, the first value of `lastCost`. */
  const IntMax: int := 0x7fff_ffff

  /** The acceptance test on one candidate. */
  predicate Accepts(value: int, cost: int, lastCost: int) {
    value == Target && cost <= CostCeiling && cost <= lastCost
  }

  /** One attempt's effect on the best cost: accepted trees evaluate to the
      target and lower or keep the best cost, which becomes theirs; the
      best cost never rises. */
  function Step(lastCost: int, n: Node): (r: (bool, int))
    ensures r.1 <= lastCost
    ensures r.0 ==> Eval(n) == Target && r.1 == Cost(n) && r.1 <= CostCeiling
    ensures !r.0 ==> r.1 == lastCost
    ensures r.0 <==> Accepts(Eval(n), Cost(n), lastCost)
  {
    if Eval(n) == Target && Cost(n) <= CostCeiling && Cost(n) <= lastCost then (true, Cost(n))
    else (false, lastCost)
  }

  /** The best cost and the reported trees after the given attempts, in
      order, starting from the best cost `start`. */
  function Replay(start: int, trees: seq<Node>): (r: (int, seq<Node>))
  {
    if trees == [] then (start, [])
    else
      var before := Replay(start, trees[..|trees| - 1]);
      var last := trees[|trees| - 1];
      var step := Step(before.0, last);
      (step.1, if step.0 then before.1 + [last] else before.1)
  }

  /** Everything reported evaluates to the target within the ceiling, the
      reported costs never rise, none exceeds the starting best cost, and the
      best cost is that of the last report. */
  lemma {:induction false} ReplayReportsImprovements(start: int, trees: seq<Node>)
    ensures var r := Replay(start, trees);
      (forall i | 0 <= i < |r.1| :: Eval(r.1[i]) == Target && Cost(r.1[i]) <= CostCeiling) &&
      (forall i, j | 0 <= i < j < |r.1| :: Cost(r.1[j]) <= Cost(r.1[i])) &&
      (forall i | 0 <= i < |r.1| :: r.0 <= Cost(r.1[i]) <= start) &&
      r.0 == (if r.1 == [] then start else Cost(r.1[|r.1| - 1]))
  {
    if trees != [] {
      ReplayReportsImprovements(start, trees[..|trees| - 1]);
    }
  }

  /** Every tree in the list is one the constructor can return. */
  ghost predicate AllBuilt(trees: seq<Node>) {
    forall i | 0 <= i < |trees| :: Built(trees[i], MaxDepth, 0) && !trees[i].Terminal?
  }

  /** The attempts of the parallel loop run one after another, drawing from
      one stream, and stopping early when the stream runs out. `attempted`
      lists the trees built; `found` and `costs` are the reported trees and
      their costs, in order: exactly what Replay gives for `attempted`. */
  method Run(memo: Memo, draws: seq<nat>, attempts: nat)
    returns (lastCost: int, found: seq<Node>, costs: seq<int>, ghost attempted: seq<Node>)
    requires memo.Valid()
    modifies memo
    ensures memo.Valid()
    ensures old(memo.factorialCache).Keys <= memo.factorialCache.Keys
    ensures old(memo.doubleFactorialCache).Keys <= memo.doubleFactorialCache.Keys
    ensures |attempted| <= attempts && AllBuilt(attempted)
    ensures (lastCost, found) == Replay(IntMax, attempted)
    ensures |costs| == |found| && forall i | 0 <= i < |found| :: costs[i] == Cost(found[i])
    ensures forall i | 0 <= i < |found| :: Eval(found[i]) == Target && costs[i] <= CostCeiling
    ensures forall i, j | 0 <= i < j < |costs| :: costs[j] <= costs[i]
  {
    lastCost, found, costs, attempted := IntMax, [], [], [];
    var s := draws;
    var j := 0;
    while j < attempts
      invariant memo.Valid()
      invariant old(memo.factorialCache).Keys <= memo.factorialCache.Keys
      invariant old(memo.doubleFactorialCache).Keys <= memo.doubleFactorialCache.Keys
      invariant |attempted| == j <= attempts && AllBuilt(attempted)
      invariant (lastCost, found) == Replay(IntMax, attempted)
      invariant |costs| == |found| && forall i | 0 <= i < |found| :: costs[i] == Cost(found[i])
    {
      var zeros := StartingPrice;
      var node, rest, price, created := Build(s, zeros, MaxDepth, 0);
      if node.None? {
        break;
      }
      s := rest;
      var result := EvalWith(memo, node.value);
      if result == Target {
        var cost := CostWith(memo, node.value);
        if cost <= CostCeiling && cost <= lastCost {
          lastCost := cost;
          found, costs := found + [node.value], costs + [cost];
        }
      }
      assert (attempted + [node.value])[..|attempted|] == attempted;
      attempted := attempted + [node.value];
      j := j + 1;
    }
    ReplayReportsImprovements(IntMax, attempted);
  }

  /** Every reported tree costs 4, the table entry of 105, so after the
      first report the best cost stays 4. */
  lemma ReportedCostsAreFour(start: int, trees: seq<Node>)
    ensures var r := Replay(start, trees);
      forall i | 0 <= i < |r.1| :: Cost(r.1[i]) == 4
  {
    ReplayReportsImprovements(start, trees);
    var r := Replay(start, trees);
    forall i | 0 <= i < |r.1| ensures Cost(r.1[i]) == 4 {
      TargetCostsFour(r.1[i]);
    }
  }
}
