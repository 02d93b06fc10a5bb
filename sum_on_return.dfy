/** sumOnReturn of Recursion/Example.cpp: a recursion that adds, on the way
    back, a function-local `static int x` which every call with n > 0
    increments on the way down and which is never reset. The static
    variable lives for the whole process; here it is the field x of an
    object, so that its value before and after each call is visible. */
module SumOnReturn {

  import opened Bounds

  /** The process-lifetime state of sumOnReturn: its static counter. */
  class Counter {
    /** The static `x`, zero-initialised once per process. */
    var x: int

    constructor ()
      ensures x == 0
    {
      x := 0;
    }

    /** sumOnReturn(n): with m = PositivePart(n) = max(n, 0) and c the
        counter on entry, the counter goes up by m; each frame reads x for
        its addition only after the recursive call has returned, so all m
        additions see the final counter c + m and the result is m * (c + m). */
    method SumOnReturn(n: int) returns (r: int)
      modifies this
      ensures x == old(x) + PositivePart(n)
      ensures r == PositivePart(n) * x
      decreases n
    {
      if n > 0 {
        x := x + 1;
        var below := SumOnReturn(n - 1);
        r := below + x;
      } else {
        r := 0;
      }
    }
  }

  /** With m = max(n, 0), the first call from a fresh counter returns m * m
      (every addend is m, as the documentation of sumOnReturn says for
      n >= 0); without a reset, a second identical call returns 2 * m * m,
      a different value for n > 0, because the counter kept growing. */
  method FreshThenRepeated(n: int) returns (first: int, second: int)
    ensures first == PositivePart(n) * PositivePart(n)
    ensures second == 2 * PositivePart(n) * PositivePart(n)
    ensures n > 0 ==> second != first
  {
    var c := new Counter();
    first := c.SumOnReturn(n);
    second := c.SumOnReturn(n);
  }

  /** The driver's call sumOnReturn(5) and an identical call after it. */
  method DriverSumOnReturn() returns (first: int, second: int)
    ensures first == 25 && second == 50
  {
    first, second := FreshThenRepeated(5);
  }
}
