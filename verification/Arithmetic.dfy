/** Minimum and maximum, and order facts about products and quotients. */
module Arithmetic {
  function Min(a: int, b: int): int { if a < b then a else b }
  function Max(a: int, b: int): int { if a > b then a else b }

  lemma MultiplyMonotone(a: int, b: int, c: int)
    requires a <= b && c >= 0
    ensures a * c <= b * c
  {
  }

  lemma Distribute(a: int, b: int, c: int)
    ensures a * (b + c) == a * b + a * c
  {
  }

  lemma QuotientAtMost(n: int, d: int, bound: int)
    requires d > 0
    ensures n / d <= bound <==> n < (bound + 1) * d
    ensures n / d * d <= n < (n / d + 1) * d
  {
    var q := n / d;
    if q <= bound { MultiplyMonotone(q + 1, bound + 1, d); } else { MultiplyMonotone(bound + 1, q, d); }
  }

  lemma QuotientBetween(n: int, low: int, high: int, d: int)
    requires d > 0 && low * d <= n < (high + 1) * d
    ensures low <= n / d <= high
  {
    QuotientAtMost(n, d, low - 1);
    QuotientAtMost(n, d, high);
  }

  function Pow10(n: nat): (p: nat)
    ensures p > 0
  {
    if n == 0 then 1 else 10 * Pow10(n - 1)
  }

  lemma {:induction false} Pow10Sum(m: nat, n: nat)
    ensures Pow10(m + n) == Pow10(m) * Pow10(n)
  {
    if m > 0 {
      Pow10Sum(m - 1, n);
      assert Pow10(m + n) == 10 * Pow10(m - 1 + n);
      Associate(10, Pow10(m - 1), Pow10(n));
    }
  }

  /** `v` is the whole part of `amount` * 10^18 / 10^`decimals`, without division. */
  ghost predicate IsScaledTo18(amount: nat, decimals: nat, v: int) {
    && v * Pow10(decimals) <= amount * 1_000_000_000_000_000_000 < (v + 1) * Pow10(decimals)
    && (decimals <= 18 ==> v * Pow10(decimals) == amount * 1_000_000_000_000_000_000)
  }

  lemma ScalingUp(amount: nat, decimals: nat)
    requires decimals <= 18
    ensures IsScaledTo18(amount, decimals, amount * Pow10(18 - decimals))
  {
    Pow10Sum(18 - decimals, decimals);
    EighteenPlaces();
    Associate(amount, Pow10(18 - decimals), Pow10(decimals));
    Distribute(Pow10(decimals), amount * Pow10(18 - decimals), 1);
  }

  lemma ScalingDown(amount: nat, decimals: nat)
    requires decimals > 18
    ensures IsScaledTo18(amount, decimals, amount / Pow10(decimals - 18))
  {
    var p := Pow10(decimals - 18);
    var q := amount / p;
    Pow10Sum(decimals - 18, 18);
    EighteenPlaces();
    QuotientAtMost(amount, p, 0);
    MultiplyMonotone(q * p, amount, 1_000_000_000_000_000_000);
    MultiplyMonotone(amount + 1, (q + 1) * p, 1_000_000_000_000_000_000);
    Associate(q, p, 1_000_000_000_000_000_000);
    Associate(q + 1, p, 1_000_000_000_000_000_000);
  }

  lemma EighteenPlaces()
    ensures Pow10(18) == 1_000_000_000_000_000_000
  {
    assert Pow10(6) == 1_000_000;
    Pow10Sum(6, 6);
    Pow10Sum(12, 6);
  }

  lemma Associate(a: int, b: int, c: int)
    ensures a * (b * c) == a * b * c
  {
  }
}
