/** A counting helper shared by the recursions that stop at n <= 0. */
module Bounds {

  /** max(n, 0): how many times a recursion that stops at n <= 0 runs its
      step when started at n. */
  function PositivePart(n: int): nat
  {
    if n > 0 then n else 0
  }
}
