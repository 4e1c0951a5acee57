/** retryBackoff of internal/application/send.go: doubling a time.Duration, in nanoseconds of an int64. */
module Backoff {
  const SECOND := 1_000_000_000
  const LIMIT := 0x8000_0000_0000_0000

  /** The int64 that an exact value wraps to. */
  function Wrap(x: int): (r: int)
    ensures -LIMIT <= r < LIMIT
    ensures -LIMIT <= x < LIMIT ==> r == x
  {
    (x + LIMIT) % (2 * LIMIT) - LIMIT
  }

  function Pow2(n: nat): (p: nat)
    ensures p >= 1
  {
    if n == 0 then 1 else 2 * Pow2(n - 1)
  }

  function Doublings(attempt: int): nat { if attempt <= 1 then 0 else attempt - 1 }

  function Doubled(base: int, attempt: int): int { base * Pow2(Doublings(attempt)) }

  lemma WrapCongruent(x: int)
    ensures exists k :: Wrap(x) == x - k * (2 * LIMIT)
  {
    var k := (x + LIMIT) / (2 * LIMIT);
    assert Wrap(x) == x - k * (2 * LIMIT);
  }

  lemma WrapShift(x: int, k: int)
    ensures Wrap(x + k * (2 * LIMIT)) == Wrap(x)
  {
    var m := 2 * LIMIT;
    var a, b := (x + LIMIT) / m, (x + LIMIT) % m;
    assert x + k * m + LIMIT == (a + k) * m + b;
    ModUnique(x + k * m + LIMIT, m, a + k, b);
  }

  lemma ModUnique(x: int, m: int, q: int, r: int)
    requires m > 0 && 0 <= r < m && x == q * m + r
    ensures x % m == r
  {
    var d := x / m - q;
    assert x == (x / m) * m + x % m;
    assert d * m == r - x % m;
    assert d >= 1 ==> d * m >= m;
    assert d <= -1 ==> d * m <= -m;
  }

  /** Wrapping at every doubling loses nothing against wrapping once. */
  lemma WrapTwice(x: int)
    ensures Wrap(2 * Wrap(x)) == Wrap(2 * x)
  {
    WrapCongruent(x);
    var k :| Wrap(x) == x - k * (2 * LIMIT);
    assert 2 * Wrap(x) == 2 * x + (-2 * k) * (2 * LIMIT);
    WrapShift(2 * x, -2 * k);
  }

  method RetryBackoff(baseSeconds: int, maxSeconds: int, attempt: int) returns (d: int)
    ensures d == Delay(baseSeconds * SECOND, Wrap(maxSeconds * SECOND), attempt)
  {
    d := Wrap(baseSeconds * SECOND);
    var i := 1;
    while i < attempt
      invariant 1 <= i && (attempt >= 1 ==> i <= attempt) && (attempt < 1 ==> i == 1)
      invariant d == Wrap(Doubled(baseSeconds * SECOND, i))
    {
      WrapTwice(Doubled(baseSeconds * SECOND, i));
      DoubledNext(baseSeconds * SECOND, i);
      d := Wrap(d * 2);
      i := i + 1;
    }
    var max := Wrap(maxSeconds * SECOND);
    if max > 0 && d > max { d := max; }
  }

  lemma DoubledNext(base: int, i: int)
    requires i >= 1
    ensures Doubled(base, i + 1) == 2 * Doubled(base, i)
  {
    assert Pow2(i) == 2 * Pow2(i - 1);
    assert base * (2 * Pow2(i - 1)) == 2 * (base * Pow2(i - 1));
  }

  /** What the loop and the cap amount to. */
  function Capped(w: int, max: int): int { if max > 0 && w > max then max else w }

  function Delay(base: int, max: int, attempt: int): int { Capped(Wrap(Doubled(base, attempt)), max) }

  /** The documented delay: base times 2^(attempt-1), at most max. */
  function Ideal(base: int, max: int, attempt: int): int { Capped(Doubled(base, attempt), max) }

  predicate Fits(x: int) { -LIMIT <= x < LIMIT }

  /** The delay is the documented one exactly when the product fits an int64 or wraps to more than the cap. */
  lemma DelayExactIff(base: int, max: int, attempt: int)
    requires base > 0 && 0 < max < LIMIT
    ensures Delay(base, max, attempt) == Ideal(base, max, attempt)
            <==> Fits(Doubled(base, attempt)) || Wrap(Doubled(base, attempt)) >= max
  {
    assert Doubled(base, attempt) > 0 by { Positive(base, Pow2(Doublings(attempt))); }
  }

  /**
    A bound a caller can check: for a base of fewer than 2^k seconds the first 34 - k delays are exact
    and do not overflow.
   */
  lemma DelayExactUpTo(seconds: int, max: int, attempt: int, k: nat)
    requires 0 < seconds < Pow2(k) && attempt + k <= 34 && k <= 33
    ensures Fits(Doubled(seconds * SECOND, attempt))
    ensures Delay(seconds * SECOND, max, attempt) == Ideal(seconds * SECOND, max, attempt)
  {
    DoubledBelow(seconds, Doublings(attempt), k);
  }

  lemma DoubledBelow(seconds: nat, n: nat, k: nat)
    requires 0 < seconds < Pow2(k) && k + 30 + n <= 63
    ensures 0 < seconds * SECOND * Pow2(n) < LIMIT
  {
    var base, top := seconds * SECOND, Pow2(k + 30);
    assert base < top by {
      SecondBelow();
      Pow2Splits(k, 30);
      BothSmaller(seconds, Pow2(k), SECOND, Pow2(30));
    }
    Smaller(base, top, Pow2(n));
    Positive(base, Pow2(n));
    assert top * Pow2(n) <= LIMIT by {
      Pow2Splits(k + 30, n);
      Pow2Grows(k + 30 + n, 63);
      Pow2Of63();
    }
  }

  lemma SecondBelow()
    ensures SECOND < Pow2(30)
  {
    assert Pow2(10) == 0x400;
    Pow2Splits(10, 10);
    Pow2Splits(20, 10);
  }

  lemma Pow2Of63()
    ensures Pow2(63) == LIMIT
  {
    Pow2Of55();
    Pow2Splits(55, 8);
    assert Pow2(8) == 0x100;
  }

  lemma Smaller(a: nat, b: nat, x: nat)
    requires a < b && x > 0
    ensures a * x < b * x
  {
  }

  lemma BothSmaller(a: nat, b: nat, x: nat, y: nat)
    requires a < b && 0 < x < y
    ensures a * x < b * y
  {
    Smaller(a, b, x);
    Product(b, x, y);
  }

  lemma Positive(a: int, b: int)
    requires a > 0 && b > 0
    ensures a * b >= a
  {
  }

  lemma {:induction false} Pow2Grows(m: nat, n: nat)
    requires m <= n
    ensures Pow2(m) <= Pow2(n)
  {
    if m < n { Pow2Grows(m, n - 1); }
  }

  /** As long as the products fit, waiting longer never shortens the delay. */
  lemma DelayGrows(base: int, max: int, a: int, b: int)
    requires base >= 0 && a <= b && Fits(Doubled(base, b))
    ensures 0 <= Delay(base, max, a) <= Delay(base, max, b)
  {
    var m, n := Doublings(a), Doublings(b);
    Pow2Grows(m, n);
    Product(base, Pow2(m), Pow2(n));
  }

  lemma Product(a: int, x: nat, y: nat)
    requires a >= 0 && x <= y
    ensures 0 <= a * x <= a * y
  {
  }

  lemma {:induction false} Pow2Splits(m: nat, n: nat)
    ensures Pow2(m + n) == Pow2(m) * Pow2(n)
  {
    if m > 0 {
      Pow2Splits(m - 1, n);
      assert Pow2(m + n) == 2 * Pow2(m - 1 + n);
    }
  }

  /** A second holds nine factors of two: from the 56th attempt on every delay has wrapped to nothing. */
  lemma DelayVanishes(seconds: int, max: int, attempt: int)
    requires attempt >= 56 && max > 0
    ensures Delay(seconds * SECOND, max, attempt) == 0
  {
    var rest := attempt - 56;
    Pow2Splits(55, rest);
    Pow2Of55();
    Regroup(seconds, Pow2(rest));
    WrapShift(0, seconds * 1953125 * Pow2(rest));
  }

  lemma Pow2Of55()
    ensures Pow2(55) == 0x80_0000_0000_0000
  {
    assert Pow2(11) == 0x800;
    Pow2Splits(11, 11);
    Pow2Splits(22, 22);
    Pow2Splits(44, 11);
  }

  lemma Regroup(seconds: int, p: int)
    ensures seconds * SECOND * (0x80_0000_0000_0000 * p) == seconds * 1953125 * p * (2 * LIMIT)
  {
    assert SECOND * 0x80_0000_0000_0000 == 1953125 * (2 * LIMIT);
    var c := SECOND * 0x80_0000_0000_0000;
    assert seconds * SECOND * (0x80_0000_0000_0000 * p) == seconds * p * c;
    assert seconds * 1953125 * p * (2 * LIMIT) == seconds * p * c;
  }
}
