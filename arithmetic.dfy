/** The value-returning recursions of Recursion/Example.cpp: the sum of the
    natural numbers, the factorial, three ways to raise a number to a power,
    and the nested recursion (McCarthy's 91 function).

    Integers are mathematical: the C++ `int`/`long` widths are not modelled.
    Where the C++ code recurses forever on a negative argument, the model
    requires a non-negative one. */
module Arithmetic {

  /** num to the power e, the mathematical reference the three power
      functions are proved against. */
  function Pow(num: int, e: nat): int
  {
    if e == 0 then 1 else num * Pow(num, e - 1)
  }

  /** Exponents add: num^(m+n) == num^m * num^n, a description of Pow that
      does not follow its recursion. */
  lemma {:induction false} PowAdd(num: int, m: nat, n: nat)
    ensures Pow(num, m + n) == Pow(num, m) * Pow(num, n)
    decreases m
  {
    if m > 0 {
      PowAdd(num, m - 1, n);
      assert Pow(num, m + n) == num * Pow(num, m - 1 + n);
    }
  }

  /** Squaring the base halves the exponent: (num*num)^k == num^(2k). */
  lemma {:induction false} PowSquare(num: int, k: nat)
    ensures Pow(num * num, k) == Pow(num, 2 * k)
    decreases k
  {
    if k > 0 {
      PowSquare(num, k - 1);
      calc {
        Pow(num, 2 * k);
        num * Pow(num, 2 * k - 1);
        num * (num * Pow(num, 2 * (k - 1)));
        (num * num) * Pow(num * num, k - 1);
        Pow(num * num, k);
      }
    }
  }

  /** sumOfNaturalNumbers: 0 + 1 + ... + ceiling, by linear recursion. */
  function SumOfNaturalNumbers(ceiling: int): (r: int)
    requires ceiling >= 0
    ensures 2 * r == ceiling * (ceiling + 1)
    ensures r == ceiling * (ceiling + 1) / 2
    decreases ceiling
  {
    if ceiling == 0 then 0 else SumOfNaturalNumbers(ceiling - 1) + ceiling
  }

  /** factorial: n! by linear recursion, multiplying on the way back. */
  function Factorial(n: int): (r: int)
    requires n >= 0
    ensures r >= 1
    ensures r >= n
    decreases n
  {
    if n == 0 then 1 else Factorial(n - 1) * n
  }

  /** lo * (lo + 1) * ... * hi, multiplied from the low end (1 when lo > hi):
      an independent definition of the factorial. */
  function ProductRange(lo: int, hi: int): int
    decreases hi - lo
  {
    if lo > hi then 1 else lo * ProductRange(lo + 1, hi)
  }

  /** The product over lo..hi is the product over lo..hi-1 times hi. */
  lemma {:induction false} ProductRangeLast(lo: int, hi: int)
    requires lo <= hi
    ensures ProductRange(lo, hi) == ProductRange(lo, hi - 1) * hi
    decreases hi - lo
  {
    if lo < hi {
      ProductRangeLast(lo + 1, hi);
      calc {
        ProductRange(lo, hi);
        lo * ProductRange(lo + 1, hi);
        lo * (ProductRange(lo + 1, hi - 1) * hi);
        (lo * ProductRange(lo + 1, hi - 1)) * hi;
        ProductRange(lo, hi - 1) * hi;
      }
    }
  }

  /** Factorial(n) is the product 1 * 2 * ... * n. */
  lemma {:induction false} FactorialIsProduct(n: int)
    requires n >= 0
    ensures Factorial(n) == ProductRange(1, n)
    decreases n
  {
    if n > 0 {
      FactorialIsProduct(n - 1);
      ProductRangeLast(1, n);
    }
  }

  /** Two helper facts about products, kept apart so that the solver meets
      them without other nonlinear terms around. */
  lemma PositiveProduct(a: int, b: int)
    requires a >= 1 && b >= 1
    ensures a * b >= 1
  {
  }

  lemma Regroup(a: int, b: int, c: int)
    ensures (a * b) * c == a * (b * c)
  {
  }

  /** Every k in 1..n divides n!: q is the cofactor. */
  lemma {:induction false} FactorialMultiple(n: int, k: int) returns (q: int)
    requires 1 <= k <= n
    ensures Factorial(n) == k * q
    ensures q >= 1
    decreases n
  {
    if k == n {
      q := Factorial(n - 1);
      assert Factorial(n) == Factorial(n - 1) * n;
    } else {
      var q' := FactorialMultiple(n - 1, k);
      q := q' * n;
      PositiveProduct(q', n);
      Regroup(k, q', n);
    }
  }

  /** powerRecursion: num^power by naive linear recursion,
      multiplying num on the right on the way back. */
  function PowerRecursion(num: int, power: int): (r: int)
    requires power >= 0
    ensures r == Pow(num, power)
    decreases power
  {
    if power == 0 then 1 else PowerRecursion(num, power - 1) * num
  }

  /** powerIteration: num^power by a loop accumulating into res.
      A negative power leaves the loop body unexecuted, so the result is 1. */
  method PowerIteration(num: int, power: int) returns (res: int)
    ensures power >= 0 ==> res == Pow(num, power)
    ensures power < 0 ==> res == 1
  {
    res := 1;
    var i: nat := 0;
    while i < power
      invariant power >= 0 ==> i <= power
      invariant power < 0 ==> i == 0
      invariant res == Pow(num, i)
    {
      res := res * num;
      i := i + 1;
    }
  }

  /** powerRecursionOptimized: num^power by repeated squaring, using
      num^(2k) == (num*num)^k and num^(2k+1) == num * (num*num)^k. */
  function PowerRecursionOptimized(num: int, power: int): (r: int)
    requires power >= 0
    ensures r == Pow(num, power)
    decreases power
  {
    if power == 0 then 1
    else if power % 2 == 0 then
      assert 2 * (power / 2) == power;
      PowSquare(num, power / 2);
      PowerRecursionOptimized(num * num, power / 2)
    else
      assert 2 * ((power - 1) / 2) == power - 1;
      assert Pow(num, power) == num * Pow(num, power - 1);
      PowSquare(num, (power - 1) / 2);
      num * PowerRecursionOptimized(num * num, (power - 1) / 2)
  }

  /** The naive and the repeated-squaring recursions agree on every input;
      PowerIteration's postcondition ties it to the same Pow. */
  lemma PowersAgree(num: int, power: int)
    requires power >= 0
    ensures PowerRecursion(num, power) == PowerRecursionOptimized(num, power) == Pow(num, power)
  {
  }

  /** nestedRecursion: McCarthy's 91 function. The postcondition is what
      proves termination: the outer call's argument is bounded by it. */
  function NestedRecursion(n: int): (r: int)
    ensures r == if n > 100 then n - 10 else 91
    decreases 101 - n
  {
    if n > 100 then n - 10 else NestedRecursion(NestedRecursion(n + 11))
  }

  /** The values the driver prints for the arithmetic recursions, and the
      base cases sum(0) = 0 and factorial(0) = 1. */
  lemma DriverValues()
    ensures NestedRecursion(95) == 91
    ensures SumOfNaturalNumbers(7) == 28
    ensures SumOfNaturalNumbers(0) == 0
    ensures Factorial(0) == 1
    ensures Factorial(10) == 3628800
    ensures PowerRecursion(2, 5) == PowerRecursionOptimized(2, 5) == 32
  {
  }

  /** The driver's powerIteration(2, 5). */
  method DriverPowerIteration() returns (r: int)
    ensures r == 32
  {
    r := PowerIteration(2, 5);
  }
}
