/** Wrapping 32-bit sequence numbers. The library that implements them is not
    part of this model; its contract is written out here: incrementing wraps
    around, and two numbers are compared by the half of the circle in which
    the second lies as seen from the first. */
module Seqnums {

  const MIN_INT32: int := -0x8000_0000
  const MAX_INT32: int := 0x7fff_ffff
  const CIRCLE: int := 0x1_0000_0000
  const HALF_CIRCLE: int := 0x8000_0000

  type Seqnum = n: int | MIN_INT32 <= n <= MAX_INT32

  function Increment(n: Seqnum): Seqnum {
    if n == MAX_INT32 then MIN_INT32 else n + 1
  }

  /** `Seqnum(a) <= Seqnum(b)`. */
  predicate NotAfter(a: Seqnum, b: Seqnum) {
    (b - a) % CIRCLE < HALF_CIRCLE
  }

  /** The number that `steps` increments after `n` produce. */
  function Advance(n: Seqnum, steps: nat): Seqnum {
    (n - MIN_INT32 + steps) % CIRCLE + MIN_INT32
  }

  lemma AdvanceOnce(n: Seqnum, steps: nat)
    ensures Advance(n, 0) == n
    ensures Increment(Advance(n, steps)) == Advance(n, steps + 1)
  {
  }

  lemma AdvanceReturns(n: Seqnum, steps: nat)
    ensures Advance(n, steps) == n <==> steps % CIRCLE == 0
  {
  }

  /** The distance of `n` from the start of a window. */
  function Offset(n: Seqnum, base: int): (r: nat)
    ensures r < CIRCLE
  {
    (n - base) % CIRCLE
  }

  /** Inside a window no wider than half the circle, the cyclic comparison is
      an ordinary linear order. */
  lemma ComparedByOffset(a: Seqnum, b: Seqnum, base: int)
    requires Offset(a, base) < HALF_CIRCLE && Offset(b, base) < HALF_CIRCLE
    ensures NotAfter(a, b) <==> Offset(a, base) <= Offset(b, base)
    ensures Offset(a, base) == Offset(b, base) ==> a == b
  {
  }
}
