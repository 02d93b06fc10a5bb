/** The printing recursions of Recursion/Example.cpp: tail, head, tree and
    indirect (mutual) recursion. Each C++ function writes one number per
    call to the console; here each is a function returning the sequence of
    numbers it would print, in order. */
module Emitting {
  import Arithmetic
  import Bounds

  /** The sequence s back to front. */
  function Reversed(s: seq<int>): seq<int>
  {
    if s == [] then [] else Reversed(s[1..]) + [s[0]]
  }

  /** tailRecursion: print n, then recurse on n - 1; so n, n-1, ..., 1. */
  function TailRecursion(n: int): (out: seq<int>)
    ensures |out| == Bounds.PositivePart(n)
    ensures forall i :: 0 <= i < |out| ==> out[i] == n - i
    decreases n
  {
    if n > 0 then [n] + TailRecursion(n - 1) else []
  }

  /** headRecursion: recurse on n - 1, then print n; so 1, 2, ..., n. */
  function HeadRecursion(n: int): (out: seq<int>)
    ensures |out| == Bounds.PositivePart(n)
    ensures forall i :: 0 <= i < |out| ==> out[i] == i + 1
    decreases n
  {
    if n > 0 then HeadRecursion(n - 1) + [n] else []
  }

  /** Moving the print from before the call to after it reverses the output. */
  lemma {:induction false} HeadIsReversedTail(n: int)
    ensures HeadRecursion(n) == Reversed(TailRecursion(n))
    decreases n
  {
    if n > 0 {
      HeadIsReversedTail(n - 1);
      var t := TailRecursion(n);
      assert t[1..] == TailRecursion(n - 1);
    }
  }

  /** treeRecursion: print n, then recurse twice on n - 1 (pre-order walk of
      a complete binary tree of height n): 2^n - 1 numbers, all in 1..n. */
  function TreeRecursion(n: int): (out: seq<int>)
    ensures |out| == if n > 0 then Arithmetic.Pow(2, n) - 1 else 0
    ensures n > 0 ==> out[0] == n
    ensures forall i :: 0 <= i < |out| ==> 1 <= out[i] <= n
    decreases n
  {
    if n > 0 then [n] + TreeRecursion(n - 1) + TreeRecursion(n - 1) else []
  }

  /** In treeRecursion(n) the number k (1 <= k <= n) is printed exactly
      2^(n-k) times: once per node at depth n - k. */
  lemma {:induction false} TreeCount(n: int, k: int)
    requires 1 <= k <= n
    ensures multiset(TreeRecursion(n))[k] == Arithmetic.Pow(2, n - k)
    decreases n
  {
    var sub := TreeRecursion(n - 1);
    assert TreeRecursion(n) == [n] + sub + sub;
    if k == n {
      assert k !in sub;
    } else {
      TreeCount(n - 1, k);
    }
  }

  /** Every number of s above 1 is followed directly by that number minus 1. */
  predicate StepsDown(s: seq<int>)
  {
    forall i :: 0 <= i < |s| - 1 && s[i] > 1 ==> s[i + 1] == s[i] - 1
  }

  /** The pre-order of treeRecursion(n): printing k > 1 is followed at once
      by the first print of the call on k - 1, and the walk ends on a leaf,
      which prints 1. */
  lemma {:induction false} TreeOrder(n: int)
    ensures StepsDown(TreeRecursion(n))
    ensures n > 0 ==> TreeRecursion(n)[|TreeRecursion(n)| - 1] == 1
    decreases n
  {
    if n > 0 {
      var sub := TreeRecursion(n - 1);
      var out := TreeRecursion(n);
      assert out == [n] + sub + sub;
      if n == 1 {
        assert out == [1];
      } else {
        TreeOrder(n - 1);
        var m := |sub|;
        assert out[m] == sub[m - 1] == 1;
        assert out[|out| - 1] == sub[m - 1];
        forall i | 0 <= i < |out| - 1 && out[i] > 1
          ensures out[i + 1] == out[i] - 1
        {
          if i == 0 {
            assert out[1] == sub[0];
          } else if i < m {
            assert out[i] == sub[i - 1] && out[i + 1] == sub[i];
          } else {
            assert out[i] == sub[i - m - 1] && out[i + 1] == sub[i - m];
          }
        }
      }
    }
  }

  /** Each number of s follows from the one before it by the step that
      alternates between the two functions: "minus one" (A calls B(a - 1))
      and "halved" (B calls A(b / 2)); minusFirst says which step comes first. */
  predicate Alternates(s: seq<int>, minusFirst: bool)
    decreases |s|
  {
    |s| <= 1 ||
    (s[1] == (if minusFirst then s[0] - 1 else s[0] / 2) && Alternates(s[1..], !minusFirst))
  }

  /** Every element of s lies in lo..hi. */
  predicate Between(s: seq<int>, lo: int, hi: int)
  {
    forall i :: 0 <= i < |s| ==> lo <= s[i] <= hi
  }

  /** Every element of s is larger than every element after it. */
  predicate StrictlyDecreasing(s: seq<int>)
  {
    forall i, j :: 0 <= i < j < |s| ==> s[i] > s[j]
  }

  /** Between is monotone in its bounds. */
  lemma BetweenWiden(s: seq<int>, lo: int, hi: int, hi': int)
    requires Between(s, lo, hi) && hi <= hi'
    ensures Between(s, lo, hi')
  {
  }

  /** Putting x in front of positive numbers below x, in strictly
      decreasing order, keeps them positive, at most x and strictly decreasing. */
  lemma PrependDescending(x: int, rest: seq<int>)
    requires x >= 1 && Between(rest, 1, x - 1) && StrictlyDecreasing(rest)
    ensures Between([x] + rest, 1, x) && StrictlyDecreasing([x] + rest)
  {
  }

  /** indirectRecursionA: if a > 0, print a and call indirectRecursionB(a - 1).
      It prints something exactly when a > 0, and then a first. */
  function IndirectRecursionA(a: int): (out: seq<int>)
    ensures a <= 0 <==> out == []
    ensures a > 0 ==> out[0] == a
    decreases a
  {
    if a > 0 then [a] + IndirectRecursionB(a - 1) else []
  }

  /** indirectRecursionB: if b > 1, print b and call indirectRecursionA(b / 2)
      (b is positive there, so C++'s truncating division is Dafny's).
      It prints something exactly when b > 1, and then b first. */
  function IndirectRecursionB(b: int): (out: seq<int>)
    ensures b <= 1 <==> out == []
    ensures b > 1 ==> out[0] == b
    decreases b
  {
    if b > 1 then [b] + IndirectRecursionA(b / 2) else []
  }

  /** The numbers indirectRecursionA(a) prints are positive, at most a and
      strictly decreasing. */
  lemma {:induction false} IndirectOrderA(a: int)
    ensures Between(IndirectRecursionA(a), 1, a)
    ensures StrictlyDecreasing(IndirectRecursionA(a))
    decreases a
  {
    if a > 0 {
      var rest := IndirectRecursionB(a - 1);
      IndirectOrderB(a - 1);
      PrependDescending(a, rest);
      assert IndirectRecursionA(a) == [a] + rest;
    }
  }

  /** The numbers indirectRecursionB(b) prints are positive, at most b and
      strictly decreasing. */
  lemma {:induction false} IndirectOrderB(b: int)
    ensures Between(IndirectRecursionB(b), 1, b)
    ensures StrictlyDecreasing(IndirectRecursionB(b))
    decreases b
  {
    if b > 1 {
      var rest := IndirectRecursionA(b / 2);
      IndirectOrderA(b / 2);
      BetweenWiden(rest, 1, b / 2, b - 1);
      PrependDescending(b, rest);
      assert IndirectRecursionB(b) == [b] + rest;
    }
  }

  /** n is even. Defined by counting down rather than as n % 2 == 0: with
      `%` the solver needs far more effort for the parity facts in
      IndirectShapeA and IndirectShapeB below. */
  predicate Even(n: nat)
  {
    if n == 0 then true else !Even(n - 1)
  }

  /** indirectRecursionA's output alternates the steps "minus one" and
      "halved", starting with "minus one". Every call of indirectRecursionB
      that prints hands indirectRecursionA a positive number, so the output
      always ends on a number printed by A, and that number is at most 2:
      the length is odd. */
  lemma {:induction false} IndirectShapeA(a: int)
    ensures Alternates(IndirectRecursionA(a), true)
    ensures a > 0 ==> !Even(|IndirectRecursionA(a)|)
    ensures a > 0 ==> IndirectRecursionA(a)[|IndirectRecursionA(a)| - 1] <= 2
    decreases a
  {
    if a > 0 {
      var out, rest := IndirectRecursionA(a), IndirectRecursionB(a - 1);
      IndirectShapeB(a - 1);
      assert out == [a] + rest && out[1..] == rest;
      if a - 1 > 1 {
        assert |out| == |rest| + 1 && out[|out| - 1] == rest[|rest| - 1];
      } else {
        assert out == [a];
      }
    }
  }

  /** indirectRecursionB's output alternates the steps "halved" and
      "minus one", starting with "halved", ends on a number at most 2, and
      has even length. */
  lemma {:induction false} IndirectShapeB(b: int)
    ensures Alternates(IndirectRecursionB(b), false)
    ensures b > 1 ==> Even(|IndirectRecursionB(b)|)
    ensures b > 1 ==> IndirectRecursionB(b)[|IndirectRecursionB(b)| - 1] <= 2
    decreases b
  {
    if b > 1 {
      var out, rest := IndirectRecursionB(b), IndirectRecursionA(b / 2);
      IndirectShapeA(b / 2);
      assert out == [b] + rest && out[1..] == rest;
      assert |out| == |rest| + 1 && out[|out| - 1] == rest[|rest| - 1];
    }
  }

  /** What the driver prints for the emitting recursions. */
  lemma DriverOutputs()
    ensures TailRecursion(3) == [3, 2, 1]
    ensures HeadRecursion(3) == [1, 2, 3]
    ensures TreeRecursion(3) == [3, 2, 1, 1, 2, 1, 1]
  {
  }

  /** The driver's indirectRecursionA(20): the steps -1 and /2 alternate. */
  lemma IndirectTwenty()
    ensures IndirectRecursionA(20) == [20, 19, 9, 8, 4, 3, 1]
  {
  }
}
