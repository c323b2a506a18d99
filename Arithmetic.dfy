/** The bounded integer functions behind the unary and binary operators:
    factorial, double factorial and sub-factorial on 0..11 with the invalid
    result 0 elsewhere, integer power and the exact square root; and the two
    process-wide memo tables that factorial and double factorial fill. */
module Arithmetic {

  /** Largest argument the factorial family accepts. */
  const MaxArgument: int := 11

  /** `quiet_NaN()` of `int` is 0, and no `int` is ever NaN: the invalid
      result of every operator is the number 0. */
  const Invalid: int := 0

  /** The double constant M_E, written as the rational
      EulerNumerator / EulerDenominator (2.718281828459045). */
  const EulerNumerator: int := 2718281828459045
  const EulerDenominator: int := 1000000000000000

  predicate InDomain(n: int) {
    0 <= n <= MaxArgument
  }

  /** `factorial(n)`: n! on the domain, the invalid result outside it. */
  function Fact(n: int): (r: int)
    ensures InDomain(n) ==> r >= 1 && r >= n
    ensures !InDomain(n) ==> r == Invalid
  {
    if !InDomain(n) then Invalid
    else if n < 2 then 1
    else
      var below := Fact(n - 1);
      assert n * below >= n * 1;
      n * below
  }

  /** `doubleFactorial(n)`: n!! = n * (n-2) * ... on the domain. */
  function DoubleFact(n: int): (r: int)
    ensures InDomain(n) ==> r >= 1 && r >= n
    ensures !InDomain(n) ==> r == Invalid
  {
    if !InDomain(n) then Invalid
    else if n < 2 then 1
    else
      var below := DoubleFact(n - 2);
      assert n * below >= n * 1;
      n * below
  }

  /** floor(f / M_E + 0.5) computed exactly: with E = N / D,
      f / E + 1/2 = (2 f D + N) / (2 N), and `/` on int floors for a
      positive divisor. */
  function RoundedQuotientByE(f: int): (r: int)
    ensures f >= 0 ==> 0 <= r <= f
    ensures f >= 2 ==> r >= 1
  {
    QuotientBounds(f);
    (2 * f * EulerDenominator + EulerNumerator) / (2 * EulerNumerator)
  }

  lemma QuotientBounds(f: int)
    ensures var q := (2 * f * EulerDenominator + EulerNumerator) / (2 * EulerNumerator);
      (f >= 0 ==> 0 <= q <= f) && (f >= 2 ==> q >= 1)
  {
    var q := (2 * f * EulerDenominator + EulerNumerator) / (2 * EulerNumerator);
    RoundingBounds(f);
    if f >= 0 && q > f {
      MulMonotone(f + 1, q, 2 * EulerNumerator);
    }
    if f >= 0 && q < 0 {
      MulMonotone(q + 1, 0, 2 * EulerNumerator);
    }
    if f >= 2 && q < 1 {
      MulMonotone(q + 1, 1, 2 * EulerNumerator);
    }
  }

  lemma MulMonotone(a: int, b: int, c: int)
    requires a <= b && c >= 0
    ensures a * c <= b * c
  {
  }

  /** `subFactorial(n)`: n! / e rounded half up, on the domain. It never
      exceeds n!, and only 0 and 1 round down to the invalid result 0. */
  function SubFact(n: int): (r: int)
    ensures InDomain(n) ==> 0 <= r <= Fact(n)
    ensures InDomain(n) && n >= 2 ==> r >= 1
    ensures r == Invalid <==> !InDomain(n) || n <= 1
  {
    if !InDomain(n) then Invalid
    else
      assert RoundedQuotientByE(1) == 0;
      RoundedQuotientByE(Fact(n))
  }

  /** Number of permutations of n items that leave no item in place: the
      reference definition that sub-factorial approximates. */
  function Derangements(n: nat): nat {
    if n == 0 then 1
    else if n == 1 then 0
    else (n - 1) * (Derangements(n - 1) + Derangements(n - 2))
  }

  /** `pow(a, b)` converted back to `int`: a^b for b >= 0; for b < 0 the
      reciprocal truncated toward zero (1, -1 or 0). */
  function Power(a: int, b: int): (r: int)
    ensures b < 0 ==> -1 <= r <= 1
    ensures b >= 0 && a >= 1 ==> r >= 1
  {
    if b >= 0 then NatPower(a, b)
    else if a == 1 then 1
    else if a == -1 then (if b % 2 == 0 then 1 else -1)
    else 0
  }

  function NatPower(a: int, b: nat): (r: int)
    ensures a >= 1 ==> r >= 1
  {
    if b == 0 then 1
    else
      var below := NatPower(a, b - 1);
      assert a >= 1 ==> a * below >= 1 * below;
      a * below
  }

  /** Largest r >= k with r * r <= z, found by counting up from k. */
  function FloorSqrtFrom(z: nat, k: nat): (r: nat)
    requires k * k <= z
    ensures r * r <= z < (r + 1) * (r + 1)
    decreases z - k
  {
    if (k + 1) * (k + 1) > z then k
    else
      assert k + 1 <= (k + 1) * (k + 1);
      FloorSqrtFrom(z, k + 1)
  }

  /** Unary operator 3: the exact root of a perfect square, the invalid
      result for negative numbers and for numbers that are not squares. */
  function SquareRoot(z: int): (r: int)
    ensures r >= 0
    ensures r != Invalid ==> r * r == z
  {
    if z < 0 then Invalid
    else
      var s := FloorSqrtFrom(z, 0);
      if s * s == z then s else Invalid
  }

  // ---------------------------------------------------------------------
  // Properties of the arithmetic functions

  /** The table of values: 0..5 give 1, 1, 2, 6, 24, 120, and 11! is
      39916800; 6!! = 48, 7!! = 105 and 9!! = 945; the sub-factorials of
      0..5 are 0, 0, 1, 2, 9, 44; -1 and 12 are outside the domain. */
  lemma KnownValues()
    ensures Fact(0) == 1 && Fact(1) == 1 && Fact(2) == 2 && Fact(3) == 6
    ensures Fact(4) == 24 && Fact(5) == 120 && Fact(11) == 39916800
    ensures DoubleFact(0) == 1 && DoubleFact(1) == 1
    ensures DoubleFact(6) == 48 && DoubleFact(7) == 105 && DoubleFact(9) == 945
    ensures SubFact(0) == 0 && SubFact(1) == 0 && SubFact(2) == 1
    ensures SubFact(3) == 2 && SubFact(4) == 9 && SubFact(5) == 44
    ensures Fact(-1) == Invalid && Fact(12) == Invalid
    ensures DoubleFact(-1) == Invalid && DoubleFact(12) == Invalid
    ensures SubFact(-1) == Invalid && SubFact(12) == Invalid
  {
  }

  /** The two double factorials of consecutive numbers multiply to the
      factorial: n!! * (n-1)!! == n! on 1..11. */
  lemma {:induction false} DoubleFactorialsMakeFactorial(n: int)
    requires 1 <= n <= MaxArgument
    ensures DoubleFact(n) * DoubleFact(n - 1) == Fact(n)
  {
    if n >= 2 {
      DoubleFactorialsMakeFactorial(n - 1);
      var older, previous := DoubleFact(n - 2), DoubleFact(n - 1);
      assert previous * older == Fact(n - 1);
      assert DoubleFact(n) == n * older;
      assert Fact(n) == n * Fact(n - 1);
      MulRegroups(n, older, previous);
    }
  }

  /** The second recurrence of derangements: D(n) = n D(n-1) + (-1)^n. */
  lemma {:induction false} DerangementsAlternating(n: nat)
    requires n >= 1
    ensures Derangements(n) == n * Derangements(n - 1) + Sign(n)
  {
    if n == 1 {
      assert Derangements(1) == 0;
    } else if n == 2 {
      assert Derangements(2) == 1;
    } else {
      DerangementsAlternating(n - 1);
      var d1, d2 := Derangements(n - 1), Derangements(n - 2);
      if n % 2 == 0 {
        assert (n - 1) % 2 == 1;
      } else {
        assert (n - 1) % 2 == 0;
      }
      assert Sign(n - 1) == -Sign(n);
      assert d1 == (n - 1) * d2 - Sign(n);
      calc {
        Derangements(n);
        (n - 1) * (d1 + d2);
        { MulDistributes(n - 1, d1, d2); }
        (n - 1) * d1 + (n - 1) * d2;
        (n - 1) * d1 + d1 + Sign(n);
        { MulDistributes(d1, n - 1, 1); }
        n * d1 + Sign(n);
      }
    }
  }

  lemma MulRegroups(a: int, b: int, c: int)
    ensures (a * b) * c == a * (c * b)
  {
  }

  /** (-1)^n. */
  function Sign(n: nat): int {
    if n % 2 == 0 then 1 else -1
  }

  lemma MulDistributes(a: int, b: int, c: int)
    ensures a * (b + c) == a * b + a * c
    ensures (b + c) * a == b * a + c * a
  {
  }

  /** Rounding n!/e to the nearest integer gives the number of derangements
      for every n in 1..11; for n = 0 it gives 0 (1/e + 0.5 < 1), not the
      one derangement of the empty set. */
  lemma {:induction false} SubFactIsDerangementCount(n: int)
    requires InDomain(n)
    ensures SubFact(n) == if n == 0 then 0 else Derangements(n)
  {
    if n <= 5 {
      SubFactTableLow();
      assert n == 0 || n == 1 || n == 2 || n == 3 || n == 4 || n == 5;
    } else {
      SubFactTableHigh();
      assert n == 6 || n == 7 || n == 8 || n == 9 || n == 10 || n == 11;
    }
  }

  lemma SubFactTableLow()
    ensures SubFact(0) == 0
    ensures SubFact(1) == Derangements(1) && SubFact(2) == Derangements(2)
    ensures SubFact(3) == Derangements(3) && SubFact(4) == Derangements(4)
    ensures SubFact(5) == Derangements(5)
  {
  }

  lemma SubFactTableHigh()
    ensures SubFact(6) == Derangements(6) && SubFact(7) == Derangements(7)
    ensures SubFact(8) == Derangements(8) && SubFact(9) == Derangements(9)
    ensures SubFact(10) == Derangements(10) && SubFact(11) == Derangements(11)
  {
    assert SubFact(11) == 14684570 == Derangements(11);
  }

  /** Sub-factorial itself follows the derangement recurrence on 2..11:
      !n = n * !(n-1) + (-1)^n. */
  lemma SubFactRecurrence(n: int)
    requires 2 <= n <= MaxArgument
    ensures SubFact(n) == n * SubFact(n - 1) + Sign(n)
  {
    SubFactIsDerangementCount(n);
    SubFactIsDerangementCount(n - 1);
    DerangementsAlternating(n);
  }

  /** RoundedQuotientByE is the floor of f / E + 1/2 for E = M_E. */
  lemma RoundingBounds(f: int)
    ensures var q := (2 * f * EulerDenominator + EulerNumerator) / (2 * EulerNumerator);
      q * (2 * EulerNumerator) <= 2 * f * EulerDenominator + EulerNumerator < (q + 1) * (2 * EulerNumerator)
  {
  }

  /** x^1 and 1^y are no-ops, which is why construction rejects them. */
  lemma {:induction false} PowerWithOne(a: int, b: int)
    ensures Power(a, 1) == a
    ensures Power(1, b) == 1
  {
    assert NatPower(a, 0) == 1;
    assert NatPower(a, 1) == a * 1;
    if b >= 0 {
      OnePowerNat(b);
    }
  }

  lemma {:induction false} OnePowerNat(b: nat)
    ensures NatPower(1, b) == 1
  {
    if b > 0 {
      OnePowerNat(b - 1);
    }
  }

  function Abs(x: int): nat {
    if x < 0 then -x else x
  }

  /** Integer division truncating toward zero, as C++ converts a quotient
      of doubles to `int` (Dafny's own `/` is Euclidean). */
  function TruncatedDiv(x: int, y: int): int
    requires y != 0
  {
    var q := Abs(x) / Abs(y);
    if (x < 0) == (y < 0) then q else -q
  }

  lemma AbsMul(a: int, b: int)
    ensures Abs(a * b) == Abs(a) * Abs(b)
  {
    if a < 0 && b >= 0 {
      assert a * b == -((-a) * b);
    } else if a >= 0 && b < 0 {
      assert a * b == -(a * (-b));
    } else if a < 0 && b < 0 {
      assert a * b == (-a) * (-b);
    }
  }

  lemma {:induction false} NatPowerOfMinusOne(k: nat)
    ensures NatPower(-1, k) == if k % 2 == 0 then 1 else -1
  {
    if k > 0 {
      NatPowerOfMinusOne(k - 1);
    }
  }

  /** For |a| >= 2 every power is nonzero, and from a^1 on at least 2 in size. */
  lemma {:induction false} NatPowerMagnitude(a: int, k: nat)
    requires Abs(a) >= 2
    ensures Abs(NatPower(a, k)) >= 1
    ensures k >= 1 ==> Abs(NatPower(a, k)) >= 2
  {
    if k > 0 {
      NatPowerMagnitude(a, k - 1);
      var p := NatPower(a, k - 1);
      assert NatPower(a, k) == a * p;
      AbsMul(a, p);
      MulMonotone(2, Abs(a), Abs(p));
    }
  }

  /** For a negative exponent `pow(a, b)` is 1 / a^-b, which C++ truncates
      toward zero on the way back to `int`. */
  lemma PowerNegativeIsTruncatedReciprocal(a: int, b: int)
    requires b < 0 && a != 0
    ensures NatPower(a, -b) != 0
    ensures Power(a, b) == TruncatedDiv(1, NatPower(a, -b))
  {
    if a == 1 {
      OnePowerNat(-b);
    } else if a == -1 {
      MinusOneReciprocal(b);
    } else {
      LargeBaseReciprocal(a, b);
    }
  }

  lemma MinusOneReciprocal(b: int)
    requires b < 0
    ensures NatPower(-1, -b) != 0
    ensures Power(-1, b) == TruncatedDiv(1, NatPower(-1, -b))
  {
    var k: nat := -b;
    NatPowerOfMinusOne(k);
    if k % 2 == 0 {
      assert b % 2 == 0;
    } else {
      assert b % 2 == 1;
    }
  }

  lemma LargeBaseReciprocal(a: int, b: int)
    requires b < 0 && Abs(a) >= 2
    ensures NatPower(a, -b) != 0
    ensures Power(a, b) == TruncatedDiv(1, NatPower(a, -b))
  {
    NatPowerMagnitude(a, -b);
    var p := NatPower(a, -b);
    assert 1 / Abs(p) == 0;
  }

  /** a^(b+c) = a^b * a^c for natural exponents. */
  lemma {:induction false} PowerAddsExponents(a: int, b: nat, c: nat)
    ensures Power(a, b + c) == Power(a, b) * Power(a, c)
  {
    if b > 0 {
      PowerAddsExponents(a, b - 1, c);
      MulRegroups(a, NatPower(a, b - 1), NatPower(a, c));
      assert NatPower(a, b + c) == a * NatPower(a, (b - 1) + c);
    }
  }

  lemma SquareMonotone(a: nat, b: nat)
    requires a <= b
    ensures a * a <= b * b
  {
    assert a * a <= a * b <= b * b;
  }

  /** The root of a perfect square k * k is k itself. */
  lemma SquareRootOfSquare(k: nat)
    ensures SquareRoot(k * k) == k
  {
    var s := FloorSqrtFrom(k * k, 0);
    if s < k {
      SquareMonotone(s + 1, k);
    } else if s > k {
      SquareMonotone(k + 1, s);
    }
  }

  // ---------------------------------------------------------------------
  // The memo tables

  /** The arguments whose factorial the recursion from n computes: 2..n. */
  function FactorialChain(n: int): set<int>
    decreases if n < 0 then 0 else n
  {
    if n < 2 then {} else FactorialChain(n - 1) + {n}
  }

  /** The arguments whose double factorial the recursion from n computes:
      n, n-2, ... down to 2 or 3. */
  function DoubleFactorialChain(n: int): set<int>
    decreases if n < 0 then 0 else n
  {
    if n < 2 then {} else DoubleFactorialChain(n - 2) + {n}
  }

  /** A cache closed downward along its recursion holds the whole chain
      below each of its keys. */
  lemma {:induction false} FactorialCacheHoldsChain(cache: map<int, int>, n: int)
    requires 2 <= n && n in cache
    requires forall k | k in cache && k > 2 :: k - 1 in cache
    ensures FactorialChain(n) <= cache.Keys
  {
    if n > 2 {
      FactorialCacheHoldsChain(cache, n - 1);
    }
  }

  lemma {:induction false} DoubleFactorialCacheHoldsChain(cache: map<int, int>, n: int)
    requires 2 <= n && n in cache
    requires forall k | k in cache && k > 3 :: k - 2 in cache
    ensures DoubleFactorialChain(n) <= cache.Keys
  {
    if n > 3 {
      DoubleFactorialCacheHoldsChain(cache, n - 2);
    }
  }

  /** The two global caches `factorialCache` and `doubleFactorialCache`.
      Valid(): every entry k |-> v holds the true value of k, so a cached
      lookup returns what the recursion would have computed; and each cache
      is closed downward along its recursion, because an entry is written
      only after the call for the one below it returned. */
  class Memo {
    var factorialCache: map<int, int>
    var doubleFactorialCache: map<int, int>

    ghost predicate Valid()
      reads this
    {
      (forall k | k in factorialCache :: 2 <= k <= MaxArgument && factorialCache[k] == Fact(k)) &&
      (forall k | k in factorialCache && k > 2 :: k - 1 in factorialCache) &&
      (forall k | k in doubleFactorialCache :: 2 <= k <= MaxArgument && doubleFactorialCache[k] == DoubleFact(k)) &&
      (forall k | k in doubleFactorialCache && k > 3 :: k - 2 in doubleFactorialCache)
    }

    constructor ()
      ensures Valid()
      ensures factorialCache == map[] && doubleFactorialCache == map[]
    {
      factorialCache := map[];
      doubleFactorialCache := map[];
    }

    /** `factorial`: the cached value if present, else n * factorial(n-1),
        recorded. The result is n! whatever the cache held; afterwards the
        cache holds exactly its old keys and 2..n, each with its true value. */
    method Factorial(n: int) returns (r: int)
      requires Valid()
      modifies this
      ensures Valid()
      ensures r == Fact(n)
      ensures InDomain(n) ==> factorialCache.Keys == old(factorialCache).Keys + FactorialChain(n)
      ensures !InDomain(n) ==> factorialCache == old(factorialCache)
      ensures doubleFactorialCache == old(doubleFactorialCache)
      decreases if n < 0 then 0 else n
    {
      if n < 0 || n > MaxArgument {
        r := Invalid;
      } else if n < 2 {
        r := 1;
      } else if n in factorialCache {
        FactorialCacheHoldsChain(factorialCache, n);
        r := factorialCache[n];
      } else {
        var below := Factorial(n - 1);
        r := n * below;
        factorialCache := factorialCache[n := r];
      }
    }

    /** `doubleFactorial`: as Factorial, with n * doubleFactorial(n-2);
        afterwards the cache holds exactly its old keys and n, n-2, ... */
    method DoubleFactorial(n: int) returns (r: int)
      requires Valid()
      modifies this
      ensures Valid()
      ensures r == DoubleFact(n)
      ensures InDomain(n) ==> doubleFactorialCache.Keys == old(doubleFactorialCache).Keys + DoubleFactorialChain(n)
      ensures !InDomain(n) ==> doubleFactorialCache == old(doubleFactorialCache)
      ensures factorialCache == old(factorialCache)
      decreases if n < 0 then 0 else n
    {
      if n < 0 || n > MaxArgument {
        r := Invalid;
      } else if n < 2 {
        r := 1;
      } else if n in doubleFactorialCache {
        DoubleFactorialCacheHoldsChain(doubleFactorialCache, n);
        r := doubleFactorialCache[n];
      } else {
        var below := DoubleFactorial(n - 2);
        assert n - 2 >= 2 ==> n - 2 in DoubleFactorialChain(n - 2);
        r := n * below;
        doubleFactorialCache := doubleFactorialCache[n := r];
        assert DoubleFactorialChain(n) == DoubleFactorialChain(n - 2) + {n};
      }
    }

    /** `subFactorial`: not cached itself; it goes through the factorial
        cache and rounds n!/e half up. */
    method SubFactorial(n: int) returns (r: int)
      requires Valid()
      modifies this
      ensures Valid()
      ensures r == SubFact(n)
      ensures InDomain(n) && n >= 1 ==> r == Derangements(n)
      ensures InDomain(n) ==> factorialCache.Keys == old(factorialCache).Keys + FactorialChain(n)
      ensures !InDomain(n) ==> factorialCache == old(factorialCache)
      ensures doubleFactorialCache == old(doubleFactorialCache)
    {
      if n < 0 || n > MaxArgument {
        return Invalid;
      }
      var f := Factorial(n);
      r := RoundedQuotientByE(f);
      SubFactIsDerangementCount(n);
    }
  }
}
