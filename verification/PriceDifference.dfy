/** Reserve price against oracle price, in basis points. */
module PriceDifference {
  import opened Arithmetic
  import opened Outcomes

  const DEGENERATE_RESERVE_RATIO_LIMIT := 10000
  const SCALE_24DP := 1_000_000_000_000_000_000_000_000

  datatype PriceError = DivisionByZero

  datatype Ratio = Ratio(reserves0: nat, reserves1: nat, oraclePrice: nat, invertRateFeed: bool, decimals0: nat, decimals1: nat)

  function Times(a: nat, b: nat): nat {
    NonNegativeProduct(a, b);
    a * b
  }

  function Over(n: nat, d: nat): nat
    requires d > 0
  {
    n / d
  }

  lemma NonNegativeProduct(a: nat, b: nat)
    ensures a * b >= 0
  {
  }

  function NormalizeTo18(amount: nat, decimals: nat): nat {
    if decimals == 18 then amount
    else if decimals < 18 then Times(amount, Pow10(18 - decimals))
    else Over(amount, Pow10(decimals - 18))
  }

  /** The amount in 18 decimals: exact up to 18, above that its whole part. */
  lemma NormalizesTo18(amount: nat, decimals: nat)
    ensures IsScaledTo18(amount, decimals, NormalizeTo18(amount, decimals))
  {
    if decimals <= 18 { ScalingUp(amount, decimals); } else { ScalingDown(amount, decimals); }
  }

  // ---------------------------------------------------------------- decimals of a scaling factor

  /** The exponent of an exact power of ten; anything else is refused. */
  method ScalingFactorToDecimals(scaling: int) returns (decimals: Option<nat>)
    ensures decimals.Some? ==> scaling == Pow10(decimals.value)
    ensures decimals.None? ==> forall d: nat :: scaling != Pow10(d)
  {
    hide Pow10;
    if scaling <= 0 { return None; }
    var d := 0;
    var n := scaling;
    assert Pow10(0) == 1 by { PowFirst(); }
    while n > 1 && n % 10 == 0
      invariant n >= 1 && scaling == n * Pow10(d)
      decreases n
    {
      assert n == n / 10 * 10;
      PowNext(d);
      assert n / 10 * 10 * Pow10(d) == n / 10 * (10 * Pow10(d));
      n := n / 10;
      d := d + 1;
    }
    if n == 1 { return Some(d); }
    forall e: nat ensures scaling != Pow10(e) { NotAPower(n, d, e); }
    decimals := None;
  }

  lemma PowFirst()
    ensures Pow10(0) == 1
  {
  }

  lemma PowNext(d: nat)
    ensures Pow10(d + 1) == 10 * Pow10(d)
  {
  }

  lemma NotAPower(n: nat, d: nat, e: nat)
    requires n > 1 && n % 10 != 0
    ensures n * Pow10(d) != Pow10(e)
  {
    hide Pow10;
    PowFirst();
    if e > d {
      Pow10Sum(e - d, d);
      PowNext(e - d - 1);
      Cancel(n, Pow10(e - d), Pow10(d));
    } else {
      Pow10Sum(d - e, e);
      PowAtLeastOne(d - e);
      Associate(n, Pow10(d - e), Pow10(e));
      MultiplyMonotone(2, n, Pow10(d - e));
      AtLeastTwice(n * Pow10(d - e), Pow10(e));
    }
  }

  lemma AtLeastTwice(a: nat, b: nat)
    requires a >= 2 && b > 0
    ensures a * b > b
  {
    MultiplyMonotone(2, a, b);
  }

  lemma PowAtLeastOne(d: nat)
    ensures Pow10(d) >= 1
  {
  }

  lemma Cancel(a: nat, b: nat, c: nat)
    requires c > 0 && a != b
    ensures a * c != b * c
  {
    if a < b { MultiplyMonotone(a + 1, b, c); } else { MultiplyMonotone(b + 1, a, c); }
  }

  // ---------------------------------------------------------------- the price difference

  /** One reserve empty and the other not: effectively one-sided; both empty: not. */
  function ClassifyExactZeroReserves(p: Ratio): Option<bool> {
    if p.reserves0 != 0 && p.reserves1 != 0 then None else Some((p.reserves0 == 0) != (p.reserves1 == 0))
  }

  predicate HasDegenerateReserves(p: Ratio) {
    var exact := ClassifyExactZeroReserves(p);
    if exact.Some? then exact.value
    else
      var norm0, norm1 := NormalizeTo18(p.reserves0, p.decimals0), NormalizeTo18(p.reserves1, p.decimals1);
      var min, max := if norm0 < norm1 then norm0 else norm1, if norm0 < norm1 then norm1 else norm0;
      min * DEGENERATE_RESERVE_RATIO_LIMIT < max
  }

  datatype Prices = Prices(reserveRatio: nat, oracleRef: nat)

  /** No comparison without an oracle price and two reserves, also after normalisation. */
  function ReservePriceVsOracleRef(p: Ratio): Option<Prices> {
    if p.oraclePrice == 0 || p.reserves0 == 0 || p.reserves1 == 0 then None
    else
      var norm0, norm1 := NormalizeTo18(p.reserves0, p.decimals0), NormalizeTo18(p.reserves1, p.decimals1);
      if norm0 == 0 || norm1 == 0 then None
      else Some(Prices(norm1 * SCALE_24DP / norm0, if p.invertRateFeed then SCALE_24DP * SCALE_24DP / p.oraclePrice else p.oraclePrice))
  }

  function Distance(a: nat, b: nat): nat { if a > b then a - b else b - a }

  function ComputePriceDifference(p: Ratio): Result<nat, PriceError> {
    match ReservePriceVsOracleRef(p)
    case None => Ok(0)
    case Some(r) =>
      if r.oracleRef == 0 then Err(DivisionByZero) else Ok(Distance(r.reserveRatio, r.oracleRef) * 10000 / r.oracleRef)
  }

  function PickActiveThreshold(p: Ratio, above: int, below: int): int {
    match ReservePriceVsOracleRef(p)
    case None => above
    case Some(r) => if r.reserveRatio > r.oracleRef then above else below
  }

  // ---------------------------------------------------------------- accuracy

  /** |norm1/norm0 - ref| / ref in basis points, as a fraction. */
  function ExactNumerator(norm0: nat, norm1: nat, oracleRef: nat): nat {
    NonNegativeProduct(norm0, oracleRef);
    Distance(norm1 * 1_000_000_000_000_000_000_000_000, oracleRef * norm0) * 10000
  }

  function ExactDenominator(norm0: nat, oracleRef: nat): int { norm0 * oracleRef }

  /** The truncated reserve ratio lies less than one below the exact one. */
  lemma RatioError(norm0: nat, norm1: nat, oracleRef: nat)
    requires norm0 > 0
    ensures
      var ratio := norm1 * SCALE_24DP / norm0;
      && Distance(ratio, oracleRef) * norm0 < Distance(norm1 * SCALE_24DP, oracleRef * norm0) + norm0
      && Distance(norm1 * SCALE_24DP, oracleRef * norm0) < Distance(ratio, oracleRef) * norm0 + norm0
  {
    var n := norm1 * SCALE_24DP;
    var ratio := n / norm0;
    QuotientAtMost(n, norm0, 0);
    assert ratio * norm0 <= n < ratio * norm0 + norm0;
    if ratio > oracleRef {
      assert (ratio - oracleRef) * norm0 == ratio * norm0 - oracleRef * norm0;
      MultiplyMonotone(oracleRef, ratio, norm0);
    } else {
      assert (oracleRef - ratio) * norm0 == oracleRef * norm0 - ratio * norm0;
      MultiplyMonotone(ratio, oracleRef, norm0);
    }
  }

  lemma ProductsMatch(bps: nat, oracleRef: nat, norm0: nat, diff: nat)
    ensures bps * oracleRef * norm0 == bps * (norm0 * oracleRef)
    ensures (bps * oracleRef + oracleRef) * norm0 == bps * (norm0 * oracleRef) + norm0 * oracleRef
    ensures diff * 10000 * norm0 == diff * norm0 * 10000
    ensures (bps - 1) * (norm0 * oracleRef) == bps * (norm0 * oracleRef) - norm0 * oracleRef
    ensures (bps + 2) * (norm0 * oracleRef) == bps * (norm0 * oracleRef) + 2 * (norm0 * oracleRef)
  {
  }

  lemma BpsBounds(norm0: nat, oracleRef: nat, diff: nat, exact: nat, bps: nat)
    requires norm0 > 0 && oracleRef >= 10000
    requires diff * norm0 < exact + norm0 && exact < diff * norm0 + norm0
    requires bps * oracleRef <= diff * 10000 < bps * oracleRef + oracleRef
    ensures (bps - 1) * (norm0 * oracleRef) < exact * 10000 < (bps + 2) * (norm0 * oracleRef)
  {
    MultiplyMonotone(bps * oracleRef, diff * 10000, norm0);
    MultiplyMonotone(diff * 10000, bps * oracleRef + oracleRef, norm0);
    MultiplyMonotone(10000, oracleRef, norm0);
    assert oracleRef * norm0 == norm0 * oracleRef;
    ProductsMatch(bps, oracleRef, norm0, diff);
  }

  /** Truncating twice costs less than two basis points once the reference is at least 10^4. */
  lemma WithinTwoBps(norm0: nat, norm1: nat, oracleRef: nat)
    requires norm0 > 0 && oracleRef >= 10000
    ensures
      var bps := Distance(norm1 * SCALE_24DP / norm0, oracleRef) * 10000 / oracleRef;
      var n, d := ExactNumerator(norm0, norm1, oracleRef), ExactDenominator(norm0, oracleRef);
      d > 0 && (bps - 1) * d < n < (bps + 2) * d
  {
    hide Distance;
    RatioError(norm0, norm1, oracleRef);
    var diff, exact := Distance(norm1 * SCALE_24DP / norm0, oracleRef), Distance(norm1 * SCALE_24DP, oracleRef * norm0);
    FloorBounds(diff * 10000, oracleRef);
    PositiveProduct(norm0, oracleRef);
    BpsBounds(norm0, oracleRef, diff, exact, diff * 10000 / oracleRef);
  }

  lemma FloorBounds(n: nat, d: nat)
    requires d > 0
    ensures n / d >= 0 && n / d * d <= n < n / d * d + d
  {
    assert n == n / d * d + n % d;
  }

  lemma PositiveProduct(a: nat, b: nat)
    requires a > 0 && b > 0
    ensures a * b > 0
  {
    MultiplyMonotone(1, a, b);
  }

  /** The computed difference is within two basis points of the exact one whenever the reference
      is at least 10^4: for a feed read as it is, whenever the oracle price is. */
  lemma DifferenceIsAccurate(p: Ratio)
    requires ReservePriceVsOracleRef(p).Some? && ReservePriceVsOracleRef(p).value.oracleRef >= 10000
    ensures
      var norm0, norm1 := NormalizeTo18(p.reserves0, p.decimals0), NormalizeTo18(p.reserves1, p.decimals1);
      var r, ref := ComputePriceDifference(p), ReservePriceVsOracleRef(p).value.oracleRef;
      var n, d := ExactNumerator(norm0, norm1, ref), ExactDenominator(norm0, ref);
      r.Ok? && d > 0 && (r.value - 1) * d < n < (r.value + 2) * d
  {
    hide ExactNumerator, ExactDenominator, NormalizeTo18;
    WithinTwoBps(NormalizeTo18(p.reserves0, p.decimals0), NormalizeTo18(p.reserves1, p.decimals1), ReservePriceVsOracleRef(p).value.oracleRef);
  }

  /** There is a comparison exactly with a price and two reserves that both normalise to something;
      without one the difference is 0 and the threshold is the one above. Its reference is the price,
      or its inverse on the 24-decimal scale, cut to a whole number. */
  lemma ComparisonMeans(p: Ratio, above: int, below: int)
    ensures
      var r, one := ReservePriceVsOracleRef(p), 1_000_000_000_000_000_000_000_000;
      && (r.Some? <==> p.oraclePrice > 0 && NormalizeTo18(p.reserves0, p.decimals0) > 0 && NormalizeTo18(p.reserves1, p.decimals1) > 0)
      && (r.None? ==> ComputePriceDifference(p) == Ok(0) && PickActiveThreshold(p, above, below) == above)
      && (r.Some? ==>
            var ref := r.value.oracleRef;
            if p.invertRateFeed then ref * p.oraclePrice <= one * one < (ref + 1) * p.oraclePrice else ref == p.oraclePrice)
  {
    NothingNormalizes(p.decimals0);
    NothingNormalizes(p.decimals1);
    if p.oraclePrice > 0 { QuotientAtMost(SCALE_24DP * SCALE_24DP, p.oraclePrice, 0); }
  }

  lemma NothingNormalizes(decimals: nat)
    ensures NormalizeTo18(0, decimals) == 0
  {
    if decimals > 18 { QuotientBetween(0, 0, 0, Pow10(decimals - 18)); }
  }

  /** Which prices give such a reference, and when an inverted price leaves none to divide by. */
  lemma ReferenceBounds(p: Ratio)
    requires ReservePriceVsOracleRef(p).Some?
    ensures
      var ref := ReservePriceVsOracleRef(p).value.oracleRef;
      && (ComputePriceDifference(p).Err? <==> p.invertRateFeed && p.oraclePrice > 1_000_000_000_000_000_000_000_000 * 1_000_000_000_000_000_000_000_000)
      && (!p.invertRateFeed ==> (ref >= 10000 <==> p.oraclePrice >= 10000))
      && (p.invertRateFeed ==> (ref >= 10000 <==> p.oraclePrice <= 1_000_000_000_000_000_000_000_000 * 100_000_000_000_000_000_000))
  {
    hide NormalizeTo18;
    var whole := SCALE_24DP * SCALE_24DP;
    QuotientAtMost(whole, p.oraclePrice, 0);
    QuotientAtMost(whole, p.oraclePrice, 9999);
  }

  // ---------------------------------------------------------------- which side

  /** The threshold is that of the side on which the exact reserve ratio lies above the reference by
      a whole unit of the 24-decimal scale; anything less counts as below. */
  lemma ThresholdSide(p: Ratio, above: int, below: int)
    requires ReservePriceVsOracleRef(p).Some?
    ensures
      var norm0, norm1 := NormalizeTo18(p.reserves0, p.decimals0), NormalizeTo18(p.reserves1, p.decimals1);
      PickActiveThreshold(p, above, below) ==
        if norm1 * 1_000_000_000_000_000_000_000_000 >= (ReservePriceVsOracleRef(p).value.oracleRef + 1) * norm0 then above else below
  {
    hide NormalizeTo18;
    var norm0, norm1 := NormalizeTo18(p.reserves0, p.decimals0), NormalizeTo18(p.reserves1, p.decimals1);
    QuotientAtMost(norm1 * SCALE_24DP, norm0, ReservePriceVsOracleRef(p).value.oracleRef);
  }

  function Swapped(p: Ratio): Ratio {
    p.(reserves0 := p.reserves1, reserves1 := p.reserves0, decimals0 := p.decimals1, decimals1 := p.decimals0)
  }

  /** One-sided means: exactly one reserve is empty, or one is worth more than 10000 times the other.
      It does not depend on which token comes first. */
  lemma DegenerateIsSymmetric(p: Ratio)
    ensures
      var norm0, norm1 := NormalizeTo18(p.reserves0, p.decimals0), NormalizeTo18(p.reserves1, p.decimals1);
      HasDegenerateReserves(p) <==>
        if p.reserves0 == 0 || p.reserves1 == 0 then p.reserves0 != p.reserves1
        else norm0 * 10000 < norm1 || norm1 * 10000 < norm0
    ensures HasDegenerateReserves(Swapped(p)) == HasDegenerateReserves(p)
  {
    hide NormalizeTo18;
  }

  // ---------------------------------------------------------------- scale invariance

  function ScaledBy(p: Ratio, k: nat): Ratio {
    NonNegativeProduct(p.reserves0, k);
    NonNegativeProduct(p.reserves1, k);
    p.(reserves0 := p.reserves0 * k, reserves1 := p.reserves1 * k)
  }

  lemma NormalizeScales(amount: nat, decimals: nat, k: nat)
    requires decimals <= 18
    ensures amount * k >= 0 && NormalizeTo18(amount * k, decimals) == NormalizeTo18(amount, decimals) * k
    ensures amount > 0 ==> NormalizeTo18(amount, decimals) > 0
  {
    hide Pow10;
    NonNegativeProduct(amount, k);
    var p := Pow10(18 - decimals);
    assert amount * k * p == amount * p * k;
    if amount > 0 { MultiplyMonotone(1, amount, p); }
  }

  lemma ScaledBetween(n: nat, d: nat, k: nat, q: int)
    requires d > 0 && k > 0 && q * d <= n < (q + 1) * d
    ensures q * (d * k) <= n * k < (q + 1) * (d * k)
  {
    MultiplyMonotone(q * d, n, k);
    MultiplyMonotone(n + 1, (q + 1) * d, k);
    assert (n + 1) * k == n * k + k;
    assert q * d * k == q * (d * k);
    assert (q + 1) * d * k == (q + 1) * (d * k);
  }

  lemma QuotientScales(n: nat, d: nat, k: nat)
    requires d > 0 && k > 0
    ensures d * k > 0 && n * k / (d * k) == n / d
  {
    MultiplyMonotone(1, d, k);
    var q := n / d;
    QuotientAtMost(n, d, 0);
    ScaledBetween(n, d, k, q);
    QuotientBetween(n * k, q, q, d * k);
  }

  lemma ProductZero(a: nat, k: nat)
    requires k > 0
    ensures a * k == 0 <==> a == 0
  {
    if a > 0 { MultiplyMonotone(1, a, k); }
  }

  lemma OrderScales(a: int, b: int, k: nat)
    requires k > 0
    ensures a < b <==> a * k < b * k
  {
    if a < b { MultiplyMonotone(a + 1, b, k); } else { MultiplyMonotone(b, a, k); }
  }

  /** The comparison sees only the proportion of the reserves. */
  lemma ComparisonScales(p: Ratio, k: nat)
    requires k > 0 && p.decimals0 <= 18 && p.decimals1 <= 18
    ensures ReservePriceVsOracleRef(ScaledBy(p, k)) == ReservePriceVsOracleRef(p)
  {
    hide NormalizeTo18;
    NormalizeScales(p.reserves0, p.decimals0, k);
    NormalizeScales(p.reserves1, p.decimals1, k);
    ProductZero(p.reserves0, k);
    ProductZero(p.reserves1, k);
    var norm0, norm1 := NormalizeTo18(p.reserves0, p.decimals0), NormalizeTo18(p.reserves1, p.decimals1);
    ProductZero(norm0, k);
    ProductZero(norm1, k);
    if norm0 > 0 {
      QuotientScales(norm1 * SCALE_24DP, norm0, k);
      assert norm1 * k * SCALE_24DP == norm1 * SCALE_24DP * k;
    }
  }

  /** With at most 18 decimals nothing changes when both reserves grow by the same factor. */
  lemma ScaleInvariant(p: Ratio, k: nat, above: int, below: int)
    requires k > 0 && p.decimals0 <= 18 && p.decimals1 <= 18
    ensures ComputePriceDifference(ScaledBy(p, k)) == ComputePriceDifference(p)
    ensures PickActiveThreshold(ScaledBy(p, k), above, below) == PickActiveThreshold(p, above, below)
    ensures HasDegenerateReserves(ScaledBy(p, k)) == HasDegenerateReserves(p)
  {
    hide NormalizeTo18, ReservePriceVsOracleRef;
    ComparisonScales(p, k);
    NormalizeScales(p.reserves0, p.decimals0, k);
    NormalizeScales(p.reserves1, p.decimals1, k);
    ProductZero(p.reserves0, k);
    ProductZero(p.reserves1, k);
    var norm0, norm1 := NormalizeTo18(p.reserves0, p.decimals0), NormalizeTo18(p.reserves1, p.decimals1);
    OrderScales(norm0, norm1, k);
    OrderScales(norm0 * DEGENERATE_RESERVE_RATIO_LIMIT, norm1, k);
    OrderScales(norm1 * DEGENERATE_RESERVE_RATIO_LIMIT, norm0, k);
    assert norm0 * k * DEGENERATE_RESERVE_RATIO_LIMIT == norm0 * DEGENERATE_RESERVE_RATIO_LIMIT * k;
    assert norm1 * k * DEGENERATE_RESERVE_RATIO_LIMIT == norm1 * DEGENERATE_RESERVE_RATIO_LIMIT * k;
  }

  // ---------------------------------------------------------------- above 18 decimals

  /** The smallest amount that normalises without truncation, and what it normalises to. */
  function Unit(decimals: nat): nat { if decimals <= 18 then 1 else Pow10(decimals - 18) }
  function UnitNorm(decimals: nat): nat { if decimals <= 18 then Pow10(18 - decimals) else 1 }

  lemma UnitNormalizes(decimals: nat, k: nat)
    ensures NormalizeTo18(Times(Unit(decimals), k), decimals) == Times(UnitNorm(decimals), k)
    ensures UnitNorm(decimals) > 0 && Unit(decimals) > 0
  {
    PowFirst();
    if decimals > 18 { FloorOfMultiple(Pow10(decimals - 18), k, 0); }
  }

  lemma FloorOfMultiple(d: nat, k: nat, rest: nat)
    requires rest < d
    ensures Times(d, k) + rest >= 0 && (Times(d, k) + rest) / d == k
  {
    QuotientBetween(Times(d, k) + rest, k, k, d);
  }

  lemma UnitIsBig(decimals: nat)
    requires decimals > 18
    ensures Unit(decimals) >= 10 && NormalizeTo18(1, decimals) == 0
  {
    PowNext(decimals - 19);
    PowAtLeastOne(decimals - 19);
    QuotientBetween(1, 0, 0, Pow10(decimals - 18));
  }

  /** For every pair of decimals one of which is above 18: a single unit of that token normalises to
      nothing and hides the pool's price; scaled up, the price shows, at twice the distance. */
  lemma ScaleMattersAbove18(decimals0: nat, decimals1: nat) returns (p: Ratio, k: nat)
    requires decimals0 > 18 || decimals1 > 18
    ensures p.decimals0 == decimals0 && p.decimals1 == decimals1 && k > 0
    ensures ComputePriceDifference(ScaledBy(p, k)) != ComputePriceDifference(p)
    ensures forall above, below :: above != below ==> PickActiveThreshold(ScaledBy(p, k), above, below) != PickActiveThreshold(p, above, below)
  {
    hide NormalizeTo18, Pow10;
    var norm0: nat, norm1: nat;
    UnitNormalizes(decimals0, 1);
    UnitNormalizes(decimals1, 1);
    if decimals0 > 18 {
      UnitIsBig(decimals0);
      k := Unit(decimals0);
      UnitNormalizes(decimals1, k);
      norm0, norm1 := 1, Times(UnitNorm(decimals1), k);
      ProductZero(UnitNorm(decimals1), k);
      p := Ratio(1, Unit(decimals1), 2 * (norm1 * SCALE_24DP / norm0) + 1, false, decimals0, decimals1);
    } else {
      UnitIsBig(decimals1);
      k := Unit(decimals1);
      UnitNormalizes(decimals0, k);
      norm0, norm1 := Times(UnitNorm(decimals0), k), 1;
      ProductZero(UnitNorm(decimals0), k);
      p := Ratio(Unit(decimals0), 1, 2 * (norm1 * SCALE_24DP / norm0) + 1, false, decimals0, decimals1);
    }
    ProductZero(p.reserves0, k);
    ProductZero(p.reserves1, k);
    var q := ScaledBy(p, k);
    assert q.reserves0 == Times(p.reserves0, k) && q.reserves1 == Times(p.reserves1, k);
    assert NormalizeTo18(q.reserves0, decimals0) == norm0 && NormalizeTo18(q.reserves1, decimals1) == norm1;
    TwiceTheRatio(norm1 * SCALE_24DP / norm0);
  }

  lemma TwiceTheRatio(ratio: nat)
    ensures Distance(ratio, 2 * ratio + 1) * 10000 / (2 * ratio + 1) > 0
  {
    QuotientAtMost((ratio + 1) * 10000, 2 * ratio + 1, 0);
  }

  /** Likewise a reserve just short of the next whole unit is one-sided only once it is scaled up. */
  lemma DegeneracyMattersAbove18(decimals0: nat, decimals1: nat) returns (p: Ratio, k: nat)
    requires decimals0 > 18 || decimals1 > 18
    ensures p.decimals0 == decimals0 && p.decimals1 == decimals1 && k > 0
    ensures HasDegenerateReserves(ScaledBy(p, k)) != HasDegenerateReserves(p)
  {
    if decimals0 > 18 {
      p, k := NearlyOneSided(decimals0, decimals1);
    } else {
      var other;
      other, k := NearlyOneSided(decimals1, decimals0);
      p := Swapped(other);
      DegenerateIsSymmetric(other);
      DegenerateIsSymmetric(ScaledBy(other, k));
      assert ScaledBy(p, k) == Swapped(ScaledBy(other, k));
    }
  }

  lemma NearlyOneSided(decimals0: nat, decimals1: nat) returns (p: Ratio, k: nat)
    requires decimals0 > 18
    ensures p.decimals0 == decimals0 && p.decimals1 == decimals1 && k > 0
    ensures !HasDegenerateReserves(p) && HasDegenerateReserves(ScaledBy(p, k))
  {
    hide NormalizeTo18, Pow10;
    UnitIsBig(decimals0);
    k := Unit(decimals0);
    var norm1 := UnitNorm(decimals1);
    UnitNormalizes(decimals1, 1);
    UnitNormalizes(decimals1, k);
    var limit := norm1 * DEGENERATE_RESERVE_RATIO_LIMIT;
    p := Ratio(Times(k, limit) + (k - 1), Unit(decimals1), 0, false, decimals0, decimals1);
    NearUnit(decimals0, limit);
    var q := ScaledBy(p, k);
    ProductZero(p.reserves0, k);
    ProductZero(p.reserves1, k);
    UnitNormalizes(decimals0, p.reserves0);
    assert q.reserves0 == Times(k, p.reserves0) && q.reserves1 == Times(Unit(decimals1), k);
    assert NormalizeTo18(q.reserves0, decimals0) == p.reserves0 && NormalizeTo18(q.reserves1, decimals1) == Times(norm1, k);
    assert Times(norm1, k) * DEGENERATE_RESERVE_RATIO_LIMIT == Times(k, limit);
  }

  /** A reserve one short of the next unit normalises to the units below it. */
  lemma NearUnit(decimals: nat, units: nat)
    requires decimals > 18
    ensures Unit(decimals) > 0 && Times(Unit(decimals), units) + (Unit(decimals) - 1) >= 0
    ensures NormalizeTo18(Times(Unit(decimals), units) + (Unit(decimals) - 1), decimals) == units
  {
    hide Pow10;
    UnitIsBig(decimals);
    FloorOfMultiple(Unit(decimals), units, Unit(decimals) - 1);
  }

  ghost predicate DifferenceKept(p: Ratio, k: nat) { ComputePriceDifference(ScaledBy(p, k)) == ComputePriceDifference(p) }

  ghost predicate ThresholdKept(p: Ratio, k: nat) {
    forall above, below :: PickActiveThreshold(ScaledBy(p, k), above, below) == PickActiveThreshold(p, above, below)
  }

  ghost predicate DegeneracyKept(p: Ratio, k: nat) { HasDegenerateReserves(ScaledBy(p, k)) == HasDegenerateReserves(p) }

  ghost predicate Of(p: Ratio, decimals0: nat, decimals1: nat, k: nat) { p.decimals0 == decimals0 && p.decimals1 == decimals1 && k > 0 }

  /** For each pair of decimals: difference, threshold and degeneracy are the same for all reserves,
      prices and common factors if and only if neither token has more than 18. */
  lemma ScaleInvariantExactly(decimals0: nat, decimals1: nat)
    ensures (forall p, k :: Of(p, decimals0, decimals1, k) ==> DifferenceKept(p, k)) <==> decimals0 <= 18 && decimals1 <= 18
    ensures (forall p, k :: Of(p, decimals0, decimals1, k) ==> ThresholdKept(p, k)) <==> decimals0 <= 18 && decimals1 <= 18
    ensures (forall p, k :: Of(p, decimals0, decimals1, k) ==> DegeneracyKept(p, k)) <==> decimals0 <= 18 && decimals1 <= 18
  {
    hide ComputePriceDifference, PickActiveThreshold, HasDegenerateReserves, ScaledBy;
    if decimals0 <= 18 && decimals1 <= 18 {
      forall p, k | Of(p, decimals0, decimals1, k) ensures DifferenceKept(p, k) && ThresholdKept(p, k) && DegeneracyKept(p, k) {
        forall above: int, below: int ensures PickActiveThreshold(ScaledBy(p, k), above, below) == PickActiveThreshold(p, above, below) { ScaleInvariant(p, k, above, below); }
        ScaleInvariant(p, k, 0, 0);
      }
    } else {
      var p, k := ScaleMattersAbove18(decimals0, decimals1);
      assert Of(p, decimals0, decimals1, k) && !DifferenceKept(p, k);
      assert PickActiveThreshold(ScaledBy(p, k), 0, 1) != PickActiveThreshold(p, 0, 1);
      assert !ThresholdKept(p, k);
      var q, j := DegeneracyMattersAbove18(decimals0, decimals1);
      assert Of(q, decimals0, decimals1, j) && !DegeneracyKept(q, j);
    }
  }
}
