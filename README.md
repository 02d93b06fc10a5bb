# Recursion patterns, modelled and proved in Dafny

This project models `Recursion/Example.cpp`, a single-file collection of
textbook recursions: descending (tail), ascending (head), tree, indirect
(mutual) and nested recursion, a recursion that sums on return through a
`static` counter, the sum of the natural numbers, the factorial, and three
ways of raising a number to a power (naive recursion, a loop, repeated
squaring).

The model has four modules:

- `Arithmetic` (`arithmetic.dfy`): the functions that return a value.
  `Pow` is the mathematical power that the three power functions are
  proved equal to. `ProductRange` is an independent upward product that
  the factorial is proved equal to. `PowerIteration` keeps the C++ `for`
  loop as a `while` loop with its invariant `res == num^i`. McCarthy's 91
  function (`NestedRecursion`) is proved terminating through its own
  postcondition.
- `Emitting` (`emitting.dfy`): the functions that print. Each is a
  function that returns the sequence of numbers the C++ function writes
  with `printNum`, in order. Length, order and contents are stated about
  that sequence.
- `Bounds` (`bounds.dfy`): `PositivePart`, max(n, 0), the number of
  steps a recursion that stops at n <= 0 takes. Tail and head recursion
  and `sumOnReturn` use it.
- `SumOnReturn` (`sum_on_return.dfy`): `sumOnReturn` with its
  function-local `static int x`. That variable lives as long as the
  process, so it is the field `x` of a `Counter` object. `SumOnReturn`
  is a method that changes it.

Integers are unbounded. Where the C++ code recurses forever on a negative
argument (`sumOfNaturalNumbers`, `factorial`, `powerRecursion`,
`powerRecursionOptimized`), the model requires the argument to be
non-negative. The functions whose base case is `n <= 0` or `b <= 1`
accept every integer, as the C++ does.

Points where the model fixes one reading of the code:

- `sumOnReturn` computes `sumOnReturn(n - 1) + x`. C++ does not specify
  the order in which the two operands of `+` are evaluated. The model
  reads `x` after the recursive call returns. That is the order the doc
  comment at Recursion/Example.cpp:41-49 describes. With the other order,
  each frame would add the counter's value from its own descent.
- The doc comment says `x` "will be always equal to n" on return. That
  holds only for the first call in a process. With m = max(n, 0),
  `FreshThenRepeated` proves that the first call of `sumOnReturn(n)`
  from a zero counter returns `m * m`, and that an identical second call
  returns `2 * m * m` (25, then 50, for n = 5; 0 and 0 for n <= 0).
- `powerRecursion` multiplies `num` on the right
  (`powerRecursion(num, power - 1) * num`). The model keeps that order.
  For mathematical integers it gives the same value as `num * ...`.
- `powerIteration` has no precondition in the code. A negative `power`
  skips the loop, so the result is 1. The model keeps that case.

## Model

| member | source | states |
|---|---|---|
| `Arithmetic.SumOfNaturalNumbers` | Recursion/Example.cpp:92-108 | for every ceiling >= 0 the result r satisfies 2r = ceiling(ceiling+1), i.e. r = ceiling(ceiling+1)/2, the closed form in the doc comment (so sum(0) = 0) |
| `Arithmetic.Factorial` | Recursion/Example.cpp:110-115 | for n >= 0, factorial(n) is at least 1 and at least n |
| `Arithmetic.FactorialIsProduct` | Recursion/Example.cpp:110-115 | factorial(n) equals the product 1 * 2 * ... * n, taken from the low end (an independent definition of n!) |
| `Arithmetic.FactorialMultiple` | Recursion/Example.cpp:110-115 | every k with 1 <= k <= n divides factorial(n), with a positive cofactor |
| `Arithmetic.PowerRecursion` | Recursion/Example.cpp:117-122 | for power >= 0 the naive recursion returns num^power |
| `Arithmetic.PowerIteration` | Recursion/Example.cpp:124-130 | the loop returns num^power for power >= 0 (loop invariant res = num^i) and 1 for a negative power |
| `Arithmetic.PowAdd` | Recursion/Example.cpp:117-150 | num^(m+n) = num^m * num^n for the power all three power functions are proved equal to, a property that does not follow its recursion |
| `Arithmetic.PowSquare` | Recursion/Example.cpp:132-139 | (num*num)^k = num^(2k), the identity the repeated-squaring doc comment relies on |
| `Arithmetic.PowerRecursionOptimized` | Recursion/Example.cpp:141-150 | for power >= 0 repeated squaring returns num^power, through both the even and the odd branch |
| `Arithmetic.PowersAgree` | Recursion/Example.cpp:117-150 | the naive and the repeated-squaring recursions agree with each other and with num^power on every power >= 0 |
| `Arithmetic.NestedRecursion` | Recursion/Example.cpp:84-90 | for every n the nested recursion terminates and returns n - 10 when n > 100 and 91 otherwise |
| `Arithmetic.DriverValues` | Recursion/Example.cpp:174-193 | the driver's values nestedRecursion(95) = 91, sum(7) = 28, factorial(10) = 3628800 and 2^5 = 32 from both power recursions, and the base cases sum(0) = 0, factorial(0) = 1 |
| `Arithmetic.DriverPowerIteration` | Recursion/Example.cpp:195-197 | the driver's powerIteration(2, 5) returns 32 |
| `Emitting.TailRecursion` | Recursion/Example.cpp:23-28 | tailRecursion(n) prints max(n, 0) numbers, the i-th being n - i: n, n-1, ..., 1 |
| `Emitting.HeadRecursion` | Recursion/Example.cpp:34-39 | headRecursion(n) prints max(n, 0) numbers, the i-th being i + 1: 1, 2, ..., n |
| `Emitting.HeadIsReversedTail` | Recursion/Example.cpp:23-39 | headRecursion's output is tailRecursion's output reversed |
| `Emitting.TreeRecursion` | Recursion/Example.cpp:60-66 | treeRecursion(n) prints 2^n - 1 numbers for n > 0 (none otherwise), the first is n, and all lie in 1..n |
| `Emitting.TreeCount` | Recursion/Example.cpp:60-66 | in treeRecursion(n) each k in 1..n is printed exactly 2^(n-k) times |
| `Emitting.TreeOrder` | Recursion/Example.cpp:60-66 | in treeRecursion(n) every printed k > 1 is followed directly by k - 1 (the first call of the next level down), and for n > 0 the last number printed is 1 |
| `Emitting.IndirectRecursionA` | Recursion/Example.cpp:68-75 | indirectRecursionA(a) terminates, prints nothing exactly when a <= 0, and otherwise prints a first |
| `Emitting.IndirectRecursionB` | Recursion/Example.cpp:77-82 | indirectRecursionB(b) terminates, prints nothing exactly when b <= 1, and otherwise prints b first |
| `Emitting.IndirectOrderA` | Recursion/Example.cpp:68-82 | every number indirectRecursionA(a) prints is in 1..a, and the numbers are strictly decreasing |
| `Emitting.IndirectOrderB` | Recursion/Example.cpp:68-82 | every number indirectRecursionB(b) prints is in 1..b, and the numbers are strictly decreasing |
| `Emitting.IndirectShapeA` | Recursion/Example.cpp:68-82 | A's output alternates the steps -1 and /2 (starting with -1); for a > 0 it has odd length and ends on a number at most 2 |
| `Emitting.IndirectShapeB` | Recursion/Example.cpp:68-82 | B's output alternates the steps /2 and -1 (starting with /2); for b > 1 it has even length and ends on a number at most 2 |
| `Emitting.DriverOutputs` | Recursion/Example.cpp:154-168 | tailRecursion(3) prints 3,2,1; headRecursion(3) prints 1,2,3; treeRecursion(3) prints 3,2,1,1,2,1,1 |
| `Emitting.IndirectTwenty` | Recursion/Example.cpp:170-172 | indirectRecursionA(20) prints exactly 20, 19, 9, 8, 4, 3, 1 |
| `SumOnReturn.Counter.constructor` | Recursion/Example.cpp:52 | the static counter starts at 0 |
| `SumOnReturn.Counter.SumOnReturn` | Recursion/Example.cpp:51-58 | from counter c and m = max(n, 0), the counter ends at c + m and the result is m * (c + m) |
| `SumOnReturn.FreshThenRepeated` | Recursion/Example.cpp:41-58 | with m = max(n, 0), from a fresh counter the first call of sumOnReturn(n) returns m*m (every addend is m); a second identical call returns 2*m*m, which differs for n > 0 |
| `SumOnReturn.DriverSumOnReturn` | Recursion/Example.cpp:162-164 | the driver's sumOnReturn(5) returns 25; repeating it without a reset returns 50 |

## Left out

- Console output: `printNum`, `printFunctionOutput` and `main` (Recursion/Example.cpp:7-17, 152-199) only write to the console. Each printed number is an element of the sequence a function returns. The driver's calls are pinned as the example lemmas above.
- Fixed-width integers: C++ `int` and `long` overflow. Examples are `factorial` beyond the platform width, large powers, `num * num` in `powerRecursionOptimized`, and the `int` loop counter compared with a `long` power in `powerIteration`. All arithmetic is on mathematical integers.
- Negative arguments to `sumOfNaturalNumbers`, `factorial`, `powerRecursion` and `powerRecursionOptimized`: the C++ recursion never reaches its base case. These functions require an argument >= 0.
- Call-stack depth and stack exhaustion cannot be expressed in the model. This matters for deep tree and nested recursion.
- The static counter as a 32-bit `int` is not modelled. `x` is unbounded.
