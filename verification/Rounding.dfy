/** The floating-point side of the configuration dialogue. Amounts that the
    agent sends are whole numbers rounded to a binary float with round-half-even;
    amounts that it receives are arbitrary reals. */
module Rounding {

  const EPS: real := 0.00001
  const HUGE_NEGLIGIBLE_AMOUNT: nat := 1_000_000_000_000_000_000_000_000_000_000
  const SINGLE: nat := 0x100_0000 // 24 bits of precision
  const DOUBLE: nat := 0x20_0000_0000_0000 // 53 bits of precision

  /** The spacing of the floats around `n`, when numbers below `limit` are exact. */
  function Spacing(n: nat, limit: nat): (u: nat)
    requires limit > 0
    ensures u > 0
  {
    if n < limit then 1 else 2 * Spacing(n / 2, limit)
  }

  function RoundTo(n: nat, limit: nat): nat
    requires limit > 0
  {
    var u := Spacing(n, limit);
    var below, excess := n - n % u, n % u;
    if 2 * excess < u || (2 * excess == u && (n / u) % 2 == 0) then below else below + u
  }

  /** What a `REAL` column holds after `float(n)` has been written to it. */
  function SinglePrecision(n: nat): nat {
    RoundTo(RoundTo(n, DOUBLE), SINGLE)
  }

  function Abs(x: real): (r: real)
    ensures r >= 0.0 && (r == x || r == -x)
  {
    if x < 0.0 then -x else x
  }

  /** The test by which a reported negligible amount is recognized as the one
      that was requested. */
  predicate IsCloseTo(minBalance: int, negligibleAmount: real) {
    Abs(minBalance as real + negligibleAmount) <= EPS * negligibleAmount
  }

  /** `amount` is what `n` reads as when it has been written with at least six
      significant decimal digits: it is off by half a unit of the sixth at most. */
  predicate IsReading(amount: real, n: nat) {
    Abs(amount - n as real) <= 0.000005 * n as real
  }

  /** The test by which an orphaned account is recognized as already discarded.
      Bit 0 of the configuration flags is "scheduled for deletion". */
  predicate IsAlreadyDiscarded(configFlags: int, negligibleAmount: real) {
    configFlags % 2 == 1 && negligibleAmount >= (1.0 - EPS) * HUGE_NEGLIGIBLE_AMOUNT as real
  }

  lemma {:induction false} SpacingIsFine(n: nat, limit: nat)
    requires limit > 0
    ensures n >= limit ==> Spacing(n, limit) * limit <= 2 * n
  {
    if n >= limit {
      SpacingIsFine(n / 2, limit);
      if n / 2 >= limit {
        assert Spacing(n, limit) * limit == 2 * (Spacing(n / 2, limit) * limit);
      }
    }
  }

  predicate IsPowerOfTwo(u: nat) {
    u == 1 || (u > 1 && u % 2 == 0 && IsPowerOfTwo(u / 2))
  }

  /** The spacing is the smallest power of two that leaves no more than the available
      digits. */
  lemma {:induction false} SpacingIsLeast(n: nat, limit: nat)
    requires limit > 0
    ensures IsPowerOfTwo(Spacing(n, limit))
    ensures n / Spacing(n, limit) < limit
    ensures Spacing(n, limit) > 1 ==> n / (Spacing(n, limit) / 2) >= limit
  {
    if n >= limit {
      var half := Spacing(n / 2, limit);
      SpacingIsLeast(n / 2, limit);
      Halving(n, half);
      if half > 1 {
        Halving(n, half / 2);
      }
    }
  }

  lemma Halving(n: nat, u: nat)
    requires u > 0
    ensures n / 2 / u == n / (2 * u)
  {
    var q := n / (2 * u);
    assert n == 2 * u * q + n % (2 * u);
    assert n / 2 == u * q + n % (2 * u) / 2;
    assert (n / 2) / u == q by {
      assert 0 <= n / 2 - u * q < u;
      QuotientIs(n / 2, u, q);
    }
  }

  lemma QuotientIs(x: nat, u: nat, q: nat)
    requires u > 0 && 0 <= x - u * q < u
    ensures x / u == q
  {
    var p := x / u;
    if p < q {
      MoreSteps(u, p, q);
    } else if p > q {
      MoreSteps(u, q, p);
    }
  }

  lemma {:induction false} MoreSteps(u: nat, p: nat, q: nat)
    requires p < q
    ensures u * p + u <= u * q
    decreases q - p
  {
    assert u * q == u * (q - 1) + u;
    if p < q - 1 {
      MoreSteps(u, p, q - 1);
    }
  }

  lemma RoundsToNearest(n: nat, limit: nat)
    requires limit > 0
    ensures 2 * n - Spacing(n, limit) <= 2 * RoundTo(n, limit) <= 2 * n + Spacing(n, limit)
    ensures n < limit ==> RoundTo(n, limit) == n
  {
  }

  /** How many spacings `n` is rounded to. */
  function Steps(n: nat, u: nat): nat
    requires u > 0
  {
    var (q, excess) := (n / u, n % u);
    if 2 * excess < u || (2 * excess == u && q % 2 == 0) then q else q + 1
  }

  lemma RoundsToSteps(n: nat, limit: nat)
    requires limit > 0
    ensures RoundTo(n, limit) == Spacing(n, limit) * Steps(n, Spacing(n, limit))
  {
    Multiples(n, Spacing(n, limit));
  }

  lemma Multiples(n: nat, u: nat)
    requires u > 0
    ensures n - n % u == u * (n / u) && n - n % u + u == u * (n / u + 1)
  {
    assert u * (n / u + 1) == u * (n / u) + u;
  }

  lemma TiesGoToEven(n: nat, u: nat)
    requires u > 0
    ensures 2 * n == 2 * (u * Steps(n, u)) + u || 2 * n == 2 * (u * Steps(n, u)) - u ==> Steps(n, u) % 2 == 0
  {
    var q := n / u;
    assert u * (q + 1) == u * q + u;
    assert n == u * q + n % u;
  }

  /** Rounding yields the nearest multiple of the spacing, and of two equally near
      ones the even multiple. */
  lemma RoundsHalfToEven(n: nat, limit: nat)
    requires limit > 0
    ensures var (u, r) := (Spacing(n, limit), RoundTo(n, limit));
            && r == u * (r / u)
            && 2 * n - u <= 2 * r <= 2 * n + u
            && (2 * r == 2 * n - u || 2 * r == 2 * n + u ==> (r / u) % 2 == 0)
  {
    var u := Spacing(n, limit);
    RoundsToNearest(n, limit);
    RoundsToSteps(n, limit);
    TiesGoToEven(n, u);
    QuotientIs(RoundTo(n, limit), u, Steps(n, u));
  }

  lemma ProductOfPowers(u: nat, v: nat)
    requires IsPowerOfTwo(u) && IsPowerOfTwo(v)
    ensures u * v > 0 && IsPowerOfTwo(u * v)
    decreases u
  {
    if u > 1 {
      ProductOfPowers(u / 2, v);
      assert u * v == 2 * (u / 2 * v);
    }
  }

  lemma {:induction false} SpacingIs(n: nat, limit: nat, half: nat)
    requires limit > 0 && IsPowerOfTwo(half) && half * limit <= n < 2 * (half * limit)
    ensures Spacing(n, limit) == 2 * half
    decreases half
  {
    if half > 1 {
      Doubled(half / 2, limit);
      SpacingIs(n / 2, limit, half / 2);
    } else {
      assert half * limit == limit;
    }
  }

  lemma Doubled(half: nat, limit: nat)
    ensures 2 * half * limit == 2 * (half * limit)
  {
  }

  /** A sent amount has at most 24 significant bits, and is exact if these are enough. */
  lemma SentAmountsAreSingle(n: nat)
    ensures n < 0x100_0000 ==> SinglePrecision(n) == n
    ensures exists u: nat :: IsPowerOfTwo(u) && SinglePrecision(n) % u == 0 && SinglePrecision(n) <= 0x100_0000 * u
  {
    var x := RoundTo(n, DOUBLE);
    var u := Spacing(x, SINGLE);
    RoundsToNearest(n, DOUBLE);
    RoundsToNearest(x, SINGLE);
    RoundsToSteps(x, SINGLE);
    SpacingIsLeast(x, SINGLE);
    var q := Steps(x, u);
    assert q <= 0x100_0000;
    MulMod(u, q);
    MulAtMost(u, q, 0x100_0000);
  }

  lemma MulMod(u: nat, q: nat)
    requires u > 0
    ensures (u * q) % u == 0
  {
    QuotientIs(u * q, u, q);
  }

  lemma MulAtMost(u: nat, q: nat, p: nat)
    requires q <= p
    ensures u * q <= p * u
  {
  }

  /** Amounts are rounded twice, to 53 bits and then to 24, which is not the same as
      rounding them once: this one is a little more than half-way between two floats,
      and yet rounded down. */
  lemma RoundedTwice()
    ensures SinglePrecision(0x1000_0010_0000_0001) == 0x1000_0000_0000_0000
    ensures RoundTo(0x1000_0010_0000_0001, SINGLE) == 0x1000_0020_0000_0000
  {
    assert IsPowerOfTwo(2) && IsPowerOfTwo(4) && IsPowerOfTwo(8);
    ProductOfPowers(4, 4);
    ProductOfPowers(8, 16);
    ProductOfPowers(16, 16);
    ProductOfPowers(256, 256);
    ProductOfPowers(0x1_0000, 0x1_0000);
    ProductOfPowers(0x1_0000_0000, 16);
    SpacingIs(0x1000_0010_0000_0001, DOUBLE, 0x80);
    SpacingIs(0x1000_0010_0000_0000, SINGLE, 0x10_0000_0000);
    SpacingIs(0x1000_0010_0000_0001, SINGLE, 0x10_0000_0000);
  }

  lemma Scale(x: int, y: int, limit: nat)
    requires x <= y
    ensures x * limit <= y * limit
  {
  }

  /** Rounding moves a number by at most `n / limit`. */
  lemma RelativeError(n: nat, limit: nat)
    requires limit > 0
    ensures n * limit - n <= RoundTo(n, limit) * limit <= n * limit + n
  {
    RoundsToNearest(n, limit);
    if n >= limit {
      var u, r := Spacing(n, limit), RoundTo(n, limit);
      SpacingIsFine(n, limit);
      Scale(2 * n - u, 2 * r, limit);
      Scale(2 * r, 2 * n + u, limit);
      Distribute(n, u, r, limit);
    }
  }

  lemma Distribute(n: int, u: int, r: int, limit: nat)
    ensures 2 * r * limit == 2 * (r * limit)
    ensures (2 * n - u) * limit == 2 * (n * limit) - u * limit
    ensures (2 * n + u) * limit == 2 * (n * limit) + u * limit
  {
  }

  lemma SinglePrecisionError(n: nat)
    ensures 999_999 * n <= 1_000_000 * SinglePrecision(n) <= 1_000_001 * n
  {
    RelativeError(n, DOUBLE);
    RelativeError(RoundTo(n, DOUBLE), SINGLE);
  }

  /** Rounding cannot break the dialogue: every minimum balance that is sent
      out, stored, written as text, and echoed back, is recognized. */
  lemma EchoIsRecognized(minBalance: int, amount: real)
    requires minBalance <= 0 && IsReading(amount, SinglePrecision(-minBalance))
    ensures IsCloseTo(minBalance, amount)
  {
    SinglePrecisionError(-minBalance);
    var sent: int := SinglePrecision(-minBalance);
    assert -2 * sent <= 1_000_000 * (sent + minBalance) <= 2 * sent;
    assert (sent + minBalance) as real == minBalance as real + sent as real;
  }

  /** The amounts that pass for the negated minimum balance. */
  predicate IsInRange(minBalance: int, amount: real) {
    (-minBalance) as real / 1.00001 <= amount <= (-minBalance) as real / 0.99999
  }

  /** An amount is recognized exactly when it is within a factor of 1 ± 0.00001 of the
      requested one. */
  lemma RecognizedMeansClose(minBalance: int, amount: real)
    requires minBalance <= 0
    ensures IsCloseTo(minBalance, amount) <==> IsInRange(minBalance, amount)
  {
  }

  /** A discard signal reads as discarded, also after rounding; the deletion
      signal of a deactivated debtor never does. */
  lemma OnlyDiscardsAreHuge(minBalance: int, configFlags: int, amount: real)
    requires -0x8000_0000_0000_0000 <= minBalance <= 0
    ensures IsReading(amount, SinglePrecision(HUGE_NEGLIGIBLE_AMOUNT)) ==> IsAlreadyDiscarded(1, amount)
    ensures IsReading(amount, SinglePrecision(-minBalance)) ==> !IsAlreadyDiscarded(configFlags, amount)
  {
    SinglePrecisionError(HUGE_NEGLIGIBLE_AMOUNT);
    SinglePrecisionError(-minBalance);
  }
}
