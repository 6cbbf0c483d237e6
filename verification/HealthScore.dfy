/** The health sample and the all-time health counters of a pool. */
module HealthScore {
  import opened Arithmetic
  import opened Outcomes
  import opened SecondCounting
  import opened TradingCalendar

  const SCALE := 1000000
  const HEALTHY_BOUNDARY_SCALED := 101 * (SCALE / 100)

  /** The six-decimal ratio string as the integer it prints, or the no-data sentinel. */
  datatype Ratio = NoData | Scaled(millionths: nat)

  /** What the accumulator reads back from a stored ratio. */
  predicate Healthy(r: Ratio) { r.Scaled? && r.millionths <= HEALTHY_BOUNDARY_SCALED }

  datatype Snapshot = Snapshot(ratio: Ratio, healthy: bool, hasData: bool)

  function ComputeHealthSnapshotFields(priceDifference: nat, thresholdBps: int, neverRebalance: bool, dataAvailable: bool): Snapshot {
    if neverRebalance then Snapshot(Scaled(0), true, true)
    else if !dataAvailable || thresholdBps <= 0 then Snapshot(NoData, false, false)
    else
      var isHealthy := priceDifference * 100 <= thresholdBps * 101;
      var scaled := priceDifference * SCALE / thresholdBps;
      var ratio := if !isHealthy && scaled <= HEALTHY_BOUNDARY_SCALED then HEALTHY_BOUNDARY_SCALED + 1 else scaled;
      Snapshot(Scaled(ratio), isHealthy, true)
  }

  /** The healthy band in exact integers and on the scaled quotient: they differ only when the
      quotient truncates to the boundary itself. */
  lemma ScaledBoundary(d: nat, thr: int)
    requires thr > 0
    ensures d * 100 <= thr * 101 ==> d * SCALE / thr <= HEALTHY_BOUNDARY_SCALED
    ensures d * 100 > thr * 101 ==> d * SCALE / thr >= HEALTHY_BOUNDARY_SCALED
  {
    QuotientAtMost(d * SCALE, thr, HEALTHY_BOUNDARY_SCALED);
    QuotientAtMost(d * SCALE, thr, HEALTHY_BOUNDARY_SCALED - 1);
    assert HEALTHY_BOUNDARY_SCALED * thr == thr * 101 * 10000;
  }

  /** The stored ratio carries the exact decision: it reads back as healthy exactly when the
      deviation is within 1% of the threshold, and is off the true ratio by at most a millionth. */
  lemma RatioKeepsDecision(priceDifference: nat, thresholdBps: int, neverRebalance: bool, dataAvailable: bool)
    ensures
      var f := ComputeHealthSnapshotFields(priceDifference, thresholdBps, neverRebalance, dataAvailable);
      && f.hasData == f.ratio.Scaled? && f.healthy == Healthy(f.ratio)
      && (f.hasData <==> neverRebalance || (dataAvailable && thresholdBps > 0))
      && (f.healthy <==> neverRebalance || (dataAvailable && thresholdBps > 0 && priceDifference * 100 <= thresholdBps * 101))
      && (!neverRebalance && f.hasData ==>
            (f.ratio.millionths - 1) * thresholdBps <= priceDifference * 1000000 < (f.ratio.millionths + 1) * thresholdBps)
  {
    if thresholdBps > 0 {
      ScaledBoundary(priceDifference, thresholdBps);
      var scaled := priceDifference * SCALE / thresholdBps;
      QuotientAtMost(priceDifference * SCALE, thresholdBps, 0);
      MultiplyMonotone(scaled - 1, scaled, thresholdBps);
      MultiplyMonotone(scaled + 1, scaled + 2, thresholdBps);
    }
  }

  // ---------------------------------------------------------------- the accumulator

  /** The health columns of a pool row; `cursor` 0 means no sample yet. */
  datatype PoolHealth = PoolHealth(
    totalSeconds: int, binarySeconds: int, cursor: int, lastRatio: Ratio, hasData: bool,
    reportAt: int, expiry: int)

  datatype Freshness = Freshness(reportAt: int, expiry: int)

  /** Until when the prior state may be carried; without a report or an expiry, not at all. */
  function FreshUntil(f: Freshness, otherwise: int): int {
    if f.reportAt > 0 && f.expiry > 0 then f.reportAt + f.expiry else otherwise
  }

  /** Seconds of trading at which there is a report that has not expired. */
  ghost function FreshTrading(f: Freshness): int -> bool {
    (s: int) => Trading(s) && f.reportAt > 0 && f.expiry > 0 && s < f.reportAt + f.expiry
  }

  lemma FreshCount(f: Freshness, from: int, now: int)
    requires from <= now
    ensures TradingSeconds(from, Min(now, FreshUntil(f, from))) == Count(from, now, FreshTrading(f))
  {
    hide Trading, Count;
    var end := Min(now, FreshUntil(f, from));
    if end <= from {
      CountNone(from, end, Trading);
      CountNone(from, now, FreshTrading(f));
    } else {
      CountSplit(from, end, now, FreshTrading(f));
      CountSame(from, end, FreshTrading(f), Trading);
      CountNone(end, now, FreshTrading(f));
    }
  }

  ghost function Accumulated(p: PoolHealth, now: int, ratio: Ratio, prior: Freshness): PoolHealth {
    if p.cursor == 0 then p.(cursor := now, lastRatio := ratio, hasData := true)
    else if now <= p.cursor then p.(lastRatio := ratio, hasData := true)
    else if p.lastRatio == NoData then p.(cursor := now, lastRatio := ratio, hasData := true)
    else p.(totalSeconds := p.totalSeconds + TradingSeconds(p.cursor, now),
            binarySeconds := p.binarySeconds +
              (if Healthy(p.lastRatio) then Count(p.cursor, now, FreshTrading(prior)) else 0),
            cursor := now, lastRatio := ratio, hasData := true)
  }

  method UpdateHealthAccumulators(p: PoolHealth, now: int, ratio: Ratio, prior: Freshness) returns (u: PoolHealth)
    ensures u == Accumulated(p, now, ratio, prior)
  {
    var lastTs := p.cursor;
    if lastTs == 0 { return p.(cursor := now, lastRatio := ratio, hasData := true); }
    if now <= lastTs { return p.(lastRatio := ratio, hasData := true); }
    var duration := TradingSecondsInRange(lastTs, now);
    var freshnessEnd := FreshUntil(prior, lastTs);
    var carryEnd := if now < freshnessEnd then now else freshnessEnd;
    var carrySeconds := TradingSecondsInRange(lastTs, carryEnd);
    FreshCount(prior, lastTs, now);
    var prevIsNoData := p.lastRatio == NoData;
    if prevIsNoData { return p.(cursor := now, lastRatio := ratio, hasData := true); }
    var newBinarySeconds := p.binarySeconds;
    if Healthy(p.lastRatio) { newBinarySeconds := newBinarySeconds + carrySeconds; }
    u := p.(totalSeconds := p.totalSeconds + duration, binarySeconds := newBinarySeconds,
            cursor := now, lastRatio := ratio, hasData := true);
  }

  /** What a sample sees: the deviation, the threshold, and the pool's classification. */
  datatype Reading = Reading(priceDifference: nat, thresholdBps: int, neverRebalance: bool, thresholdsKnown: bool,
                             activeThreshold: int, degenerate: bool)

  function SnapshotOf(r: Reading): Snapshot {
    ComputeHealthSnapshotFields(if r.degenerate then 0 else r.priceDifference, r.thresholdBps, r.neverRebalance,
      r.thresholdsKnown || r.activeThreshold > 0)
  }

  ghost function Recorded(p: PoolHealth, r: Reading, now: int, prior: Freshness): PoolHealth {
    var s := SnapshotOf(r);
    if !s.hasData then p.(cursor := now, lastRatio := NoData) else Accumulated(p, now, s.ratio, prior)
  }

  method RecordHealthSample(p: PoolHealth, r: Reading, now: int, prior: Freshness) returns (s: Snapshot, u: PoolHealth)
    ensures s == SnapshotOf(r) && u == Recorded(p, r, now, prior)
  {
    var dataAvailable := r.thresholdsKnown || r.activeThreshold > 0;
    var healthPriceDifference := if r.degenerate then 0 else r.priceDifference;
    s := ComputeHealthSnapshotFields(healthPriceDifference, r.thresholdBps, r.neverRebalance, dataAvailable);
    if !s.hasData { return s, p.(cursor := now, lastRatio := NoData); }
    u := UpdateHealthAccumulators(p, now, s.ratio, prior);
  }

  /** A new expiry takes effect now: the open interval is closed under the old one first. */
  ghost function ExpirySet(p: PoolHealth, expiry: int, now: int): PoolHealth {
    if p.expiry == expiry then p
    else
      var closed := if p.cursor > 0 then Accumulated(p, now, p.lastRatio, Freshness(p.reportAt, p.expiry)) else p;
      closed.(hasData := p.hasData, expiry := expiry)
  }

  /** The listed pools under the new expiry; without an answer, or without a list, none. */
  ghost function ExpiriesSet(pools: map<string, PoolHealth>, poolIds: seq<string>, oracleExpiry: Option<int>, now: int): map<string, PoolHealth> {
    map id | id in pools :: if id in poolIds && oracleExpiry.Some? then ExpirySet(pools[id], oracleExpiry.value, now) else pools[id]
  }

  /** The same event again, at whatever time, changes no pool: nothing is counted twice and no open
      interval is closed again. Nor does an event that names only pools with that expiry. */
  lemma ExpiryEventRepeats(pools: map<string, PoolHealth>, poolIds: seq<string>, oracleExpiry: Option<int>, now: int, later: int)
    ensures
      var once := ExpiriesSet(pools, poolIds, oracleExpiry, now);
      ExpiriesSet(once, poolIds, oracleExpiry, later) == once
    ensures (oracleExpiry.Some? ==> forall id :: id in poolIds && id in pools ==> pools[id].expiry == oracleExpiry.value) <==>
      (forall t :: ExpiriesSet(pools, poolIds, oracleExpiry, t) == pools)
  {
    hide Accumulated;
    if oracleExpiry.Some? {
      forall id | id in poolIds && id in pools && pools[id].expiry != oracleExpiry.value ensures ExpiriesSet(pools, poolIds, oracleExpiry, 0) != pools {
        assert ExpiriesSet(pools, poolIds, oracleExpiry, 0)[id].expiry == oracleExpiry.value;
      }
    }
  }

  class PoolTable {
    var pools: map<string, PoolHealth>

    constructor (rows: map<string, PoolHealth>)
      ensures pools == rows
    {
      pools := rows;
    }

    method UpdatePoolsOracleExpiry(poolIds: seq<string>, oracleExpiry: Option<int>, now: int)
      modifies this
      ensures pools == ExpiriesSet(old(pools), poolIds, oracleExpiry, now)
    {
      if oracleExpiry.None? || |poolIds| == 0 {
        assert forall id :: id !in poolIds || oracleExpiry.None?;
        return;
      }
      var expiry := oracleExpiry.value;
      for i := 0 to |poolIds|
        invariant pools == map id | id in old(pools) ::
          if id in poolIds[..i] then ExpirySet(old(pools)[id], expiry, now) else old(pools)[id]
      {
        hide Accumulated;
        var id := poolIds[i];
        assert poolIds[..i + 1] == poolIds[..i] + [id];
        if id in pools && pools[id].expiry != expiry {
          assert id !in poolIds[..i];
          var existing := pools[id];
          var updated := existing;
          if existing.cursor > 0 {
            updated := UpdateHealthAccumulators(existing, now, existing.lastRatio, Freshness(existing.reportAt, existing.expiry));
          }
          pools := pools[id := updated.(hasData := existing.hasData, expiry := expiry)];
        }
      }
      assert poolIds[..|poolIds|] == poolIds;
    }
  }
}
