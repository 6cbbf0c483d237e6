/** Rows of a pool's deviation breaches: opened on the rising edge, updated while open, closed
    on the falling edge, with the closed durations rolled into the pool's counters. */
module DeviationBreach {
  import opened Outcomes
  import opened SecondCounting
  import opened TradingCalendar

  const DEVIATION_BREACH_GRACE_SECONDS := 3600
  const DEVIATION_CRITICAL_NUM := 105
  const DEVIATION_CRITICAL_DEN := 100
  const DEVIATION_TOLERANCE_NUM := 101
  const DEVIATION_TOLERANCE_DEN := 100
  const LEGACY_ENTRY_THRESHOLD_FLOOR := 10000

  datatype Category = Rebalance | SwapCause | Liquidity | OracleUpdate | ThresholdChange | Unknown

  datatype Trigger = Trigger(timestamp: int, block: int, txHash: string, logIndex: int, source: string, strategy: Option<string>)

  datatype RowKey = RowKey(poolId: string, startedAt: int, block: int, txHash: string, logIndex: int)

  datatype Closing = Closing(at: int, block: int, duration: int, critical: int, cause: Category, txHash: string, strategy: Option<string>)

  datatype BreachRow = BreachRow(
    startedAtBlock: int, ended: Option<Closing>, entryDifference: nat, entryThreshold: int,
    peak: nat, peakAt: int, peakAtBlock: int, startedBy: Category, startedByTx: string, rebalances: int)

  /** The columns of a pool that matter here. */
  datatype PoolState = PoolState(
    id: string, anchor: int, degenerate: bool, priceDifference: nat, rebalanceThreshold: int, neverRebalance: bool,
    breachSeconds: int, criticalSeconds: int, breachCount: int)

  predicate Contains(s: string, part: string)
    requires part != ""
  {
    |part| <= |s| && (s[..|part|] == part || Contains(s[1..], part))
  }

  function ClassifyBreachEvent(source: string): Category {
    if Contains(source, "virtual") then Unknown
    else if source == "fpmm_rebalanced" then Rebalance
    else if source == "fpmm_swap" then SwapCause
    else if source == "fpmm_mint" || source == "fpmm_burn" then Liquidity
    else if source == "fpmm_factory" || source == "fpmm_threshold_updated" then ThresholdChange
    else if source == "oracle_reported" || source == "median_updated" then OracleUpdate
    else Unknown
  }

  /** Which sources make which cause; any other source, and any that names a virtual pool, is unknown. */
  lemma ClassifyMeans(source: string)
    ensures
      ClassifyBreachEvent(source) ==
        if source in {"fpmm_rebalanced"} then Rebalance
        else if source in {"fpmm_swap"} then SwapCause
        else if source in {"fpmm_mint", "fpmm_burn"} then Liquidity
        else if source in {"oracle_reported", "median_updated"} then OracleUpdate
        else if source in {"fpmm_factory", "fpmm_threshold_updated"} then ThresholdChange
        else Unknown
  {
    if 'v' !in source { NotVirtual(source); }
  }

  lemma {:induction false} NotVirtual(source: string)
    requires 'v' !in source
    ensures !Contains(source, "virtual")
  {
    if |source| >= 7 {
      assert source[..7][0] == source[0] && source[0] in source;
      NotVirtual(source[1..]);
    }
  }

  predicate IsRebalance(t: Trigger) { t.source == "fpmm_rebalanced" }

  function EffectiveThreshold(threshold: int, neverRebalance: bool): int {
    if threshold > 0 then threshold else if neverRebalance then 1_000_000_000_000 else 10000
  }

  function BreachEntryThreshold(p: PoolState): int {
    if p.neverRebalance then 0 else EffectiveThreshold(p.rebalanceThreshold, false)
  }

  predicate IsAboveCriticalMagnitude(priceDifference: int, threshold: int) {
    priceDifference * DEVIATION_CRITICAL_DEN > threshold * DEVIATION_CRITICAL_NUM
  }

  function KeyOf(poolId: string, startedAt: int, t: Trigger): RowKey {
    RowKey(poolId, startedAt, t.block, t.txHash, t.logIndex)
  }

  function OpenRow(next: PoolState, t: Trigger, cause: Category): BreachRow {
    BreachRow(t.block, None, next.priceDifference, BreachEntryThreshold(next), next.priceDifference, t.timestamp, t.block,
              cause, t.txHash, if IsRebalance(t) then 1 else 0)
  }

  /** Severity is scored against the threshold captured when the breach opened. */
  function ScoredThreshold(row: BreachRow): int {
    if row.entryThreshold > 0 then row.entryThreshold else LEGACY_ENTRY_THRESHOLD_FLOOR
  }

  ghost function CriticalSeconds(row: BreachRow, startedAt: int, endedAt: int): int {
    var graceEnd := startedAt + DEVIATION_BREACH_GRACE_SECONDS;
    if IsAboveCriticalMagnitude(row.peak, ScoredThreshold(row)) && endedAt > graceEnd then TradingSeconds(graceEnd, endedAt) else 0
  }

  /** The seconds of trading from an hour after the start on, if the breach was ever critical. */
  ghost function CriticalTrading(row: BreachRow, startedAt: int): int -> bool {
    (s: int) => Trading(s) && s >= startedAt + 3600 && row.peak * 100 > 105 * (if row.entryThreshold > 0 then row.entryThreshold else 10000)
  }

  lemma CriticalSecondsAre(row: BreachRow, startedAt: int, endedAt: int)
    ensures CriticalSeconds(row, startedAt, endedAt) == Count(startedAt, endedAt, CriticalTrading(row, startedAt))
  {
    hide Trading, Count;
    var critical, graceEnd := CriticalTrading(row, startedAt), startedAt + 3600;
    if CriticalSeconds(row, startedAt, endedAt) == 0 && !(IsAboveCriticalMagnitude(row.peak, ScoredThreshold(row)) && endedAt > graceEnd) {
      CountNone(startedAt, endedAt, critical);
    } else {
      CountSplit(startedAt, graceEnd, endedAt, critical);
      CountNone(startedAt, graceEnd, critical);
      CountSame(graceEnd, endedAt, critical, Trading);
    }
  }

  ghost function ClosedRow(row: BreachRow, startedAt: int, t: Trigger): BreachRow {
    row.(ended := Some(Closing(t.timestamp, t.block, TradingSeconds(startedAt, t.timestamp), CriticalSeconds(row, startedAt, t.timestamp),
                               ClassifyBreachEvent(t.source), t.txHash, if IsRebalance(t) then t.strategy else None)),
         rebalances := row.rebalances + (if IsRebalance(t) then 1 else 0))
  }

  function ContinuedRow(row: BreachRow, next: PoolState, t: Trigger): BreachRow {
    var bumped := next.priceDifference > row.peak;
    var category := ClassifyBreachEvent(t.source);
    var upgrade := row.startedBy == Unknown && category != Unknown;
    row.(peak := if bumped then next.priceDifference else row.peak,
         peakAt := if bumped then t.timestamp else row.peakAt,
         peakAtBlock := if bumped then t.block else row.peakAtBlock,
         startedBy := if upgrade then category else row.startedBy,
         startedByTx := if upgrade then t.txHash else row.startedByTx,
         rebalances := row.rebalances + (if IsRebalance(t) then 1 else 0))
  }

  predicate IsOpenRow(rows: map<RowKey, BreachRow>, k: RowKey, poolId: string, startedAt: int) {
    k in rows && k.poolId == poolId && k.startedAt == startedAt && rows[k].ended.None?
  }

  /** Any open row of the pool with that start, if there is one. */
  ghost predicate Picks(rows: map<RowKey, BreachRow>, poolId: string, startedAt: int, open: Option<RowKey>) {
    match open
    case Some(k) => IsOpenRow(rows, k, poolId, startedAt)
    case None => forall k :: !IsOpenRow(rows, k, poolId, startedAt)
  }

  predicate WasBreached(prev: Option<PoolState>) { prev.Some? && prev.value.anchor > 0 }

  predicate IsBreached(next: PoolState) { next.anchor > 0 && !next.degenerate }

  /** What one transition writes, given the open row found under the previous anchor. */
  ghost function RowsAfter(rows: map<RowKey, BreachRow>, prev: Option<PoolState>, next: PoolState, t: Trigger, open: Option<RowKey>): map<RowKey, BreachRow>
    requires WasBreached(prev) && open.Some? ==> open.value in rows
  {
    if !WasBreached(prev) && !IsBreached(next) then rows
    else if !WasBreached(prev) then rows[KeyOf(next.id, t.timestamp, t) := OpenRow(next, t, ClassifyBreachEvent(t.source))]
    else if !IsBreached(next) then
      if open.None? then rows else rows[open.value := ClosedRow(rows[open.value], open.value.startedAt, t)]
    else
      if open.None? then rows[KeyOf(next.id, next.anchor, t) := OpenRow(next, t, Unknown)]
      else rows[open.value := ContinuedRow(rows[open.value], next, t)]
  }

  ghost function PoolAfter(rows: map<RowKey, BreachRow>, prev: Option<PoolState>, next: PoolState, t: Trigger, open: Option<RowKey>): PoolState
    requires WasBreached(prev) && open.Some? ==> open.value in rows
  {
    if WasBreached(prev) && !IsBreached(next) then
      if open.None? then next.(breachCount := next.breachCount + 1)
      else
        var closing := ClosedRow(rows[open.value], open.value.startedAt, t).ended.value;
        next.(breachSeconds := next.breachSeconds + closing.duration,
              criticalSeconds := next.criticalSeconds + closing.critical, breachCount := next.breachCount + 1)
    else next
  }

  class BreachTable {
    var rows: map<RowKey, BreachRow>

    constructor ()
      ensures rows == map[]
    {
      rows := map[];
    }

    method GetOpenBreach(poolId: string, startedAt: int) returns (open: Option<RowKey>)
      ensures Picks(rows, poolId, startedAt, open)
    {
      var todo := set k | k in rows && k.poolId == poolId && k.startedAt == startedAt;
      while todo != {}
        invariant todo <= rows.Keys
        invariant forall k :: k in rows && k.poolId == poolId && k.startedAt == startedAt && k !in todo ==> rows[k].ended.Some?
        invariant forall k :: k in todo ==> k.poolId == poolId && k.startedAt == startedAt
        decreases |todo|
      {
        var k :| k in todo;
        if rows[k].ended.None? { return Some(k); }
        todo := todo - {k};
      }
      open := None;
    }

    method RecordBreachTransition(prev: Option<PoolState>, next: PoolState, t: Trigger) returns (updated: PoolState, ghost open: Option<RowKey>)
      modifies this
      ensures WasBreached(prev) ==> Picks(old(rows), next.id, prev.value.anchor, open)
      ensures rows == RowsAfter(old(rows), prev, next, t, open)
      ensures updated == PoolAfter(old(rows), prev, next, t, open)
    {
      hide Contains;
      updated, open := next, None;
      var wasBreached := prev.Some? && prev.value.anchor > 0;
      var isBreached := next.anchor > 0 && !next.degenerate;
      if !wasBreached && !isBreached { return; }
      var category := ClassifyBreachEvent(t.source);
      if !wasBreached {
        rows := rows[KeyOf(next.id, t.timestamp, t) := OpenRow(next, t, category)];
        return;
      }
      var found := GetOpenBreach(next.id, prev.value.anchor);
      open := found;
      if !isBreached {
        if found.None? { updated := next.(breachCount := next.breachCount + 1); return; }
        var row := rows[found.value];
        var startedAt := found.value.startedAt;
        var duration := TradingSecondsInRange(startedAt, t.timestamp);
        var graceEnd := startedAt + DEVIATION_BREACH_GRACE_SECONDS;
        var healed := if row.entryThreshold > 0 then row.entryThreshold else LEGACY_ENTRY_THRESHOLD_FLOOR;
        var critical := 0;
        if IsAboveCriticalMagnitude(row.peak, EffectiveThreshold(healed, false)) && t.timestamp > graceEnd {
          critical := TradingSecondsInRange(graceEnd, t.timestamp);
        }
        rows := rows[found.value := row.(
          ended := Some(Closing(t.timestamp, t.block, duration, critical, category, t.txHash, if IsRebalance(t) then t.strategy else None)),
          rebalances := row.rebalances + (if IsRebalance(t) then 1 else 0))];
        updated := next.(breachSeconds := next.breachSeconds + duration,
                         criticalSeconds := next.criticalSeconds + critical, breachCount := next.breachCount + 1);
        return;
      }
      if found.None? {
        rows := rows[KeyOf(next.id, next.anchor, t) := OpenRow(next, t, Unknown)];
        return;
      }
      var row := rows[found.value];
      var peakBumped := next.priceDifference > row.peak;
      var upgradeCause := row.startedBy == Unknown && category != Unknown;
      if !peakBumped && !IsRebalance(t) && !upgradeCause {
        assert ContinuedRow(row, next, t) == row;
        assert rows == rows[found.value := row];
        return;
      }
      rows := rows[found.value := ContinuedRow(row, next, t)];
    }
  }

  // ---------------------------------------------------------------- the anchor

  /** A pool row before the anchor decision; a virtual pool never breaches. */
  predicate IsInDeviationBreach(p: PoolState, isVirtual: bool) {
    && !isVirtual && !p.neverRebalance && !p.degenerate
    && p.priceDifference * DEVIATION_TOLERANCE_DEN > EffectiveThreshold(p.rebalanceThreshold, p.neverRebalance) * DEVIATION_TOLERANCE_NUM
  }

  function NextDeviationBreachStartedAt(prev: Option<PoolState>, next: PoolState, isVirtual: bool, now: int, source: string): int {
    var wasBreachedPrice := prev.Some? && IsInDeviationBreach(prev.value, isVirtual);
    var wasBreachedAnchor := WasBreached(prev);
    if next.degenerate then 0
    else if !IsInDeviationBreach(next, isVirtual) then
      if wasBreachedAnchor && source == "fpmm_update_reserves" then prev.value.anchor else 0
    else if !wasBreachedPrice then now
    else if prev.value.anchor > 0 then prev.value.anchor else now
  }

  /** Out of tolerance: more than 1% above the threshold, which is 100% if none is set. */
  predicate OutOfTolerance(p: PoolState, isVirtual: bool) {
    && !isVirtual && !p.neverRebalance && !p.degenerate
    && p.priceDifference * 100 > 101 * (if p.rebalanceThreshold > 0 then p.rebalanceThreshold else 10000)
  }

  /** What the rule sets: an anchor exactly while the pool is out of tolerance, or back in it by a
      reserves update alone; it is the old one unless the pool has only now left tolerance. */
  lemma AnchorRuleMeans(prev: Option<PoolState>, next: PoolState, isVirtual: bool, now: int, source: string)
    requires now > 0 && (prev.Some? ==> prev.value.anchor >= 0)
    ensures
      var anchor := NextDeviationBreachStartedAt(prev, next, isVirtual, now, source);
      var held := if prev.Some? then prev.value.anchor else 0;
      var was := prev.Some? && OutOfTolerance(prev.value, isVirtual);
      && (anchor == 0 || anchor == held || anchor == now)
      && (anchor != 0 <==> !next.degenerate && (OutOfTolerance(next, isVirtual) || (held > 0 && source == "fpmm_update_reserves")))
      && (anchor != 0 ==> anchor == if held > 0 && (was || !OutOfTolerance(next, isVirtual)) then held else now)
  {
  }

  /** The discipline the ledger needs: set to the block time on the rising edge, unchanged
      while the breach is open, zero when closed or degenerate. */
  predicate Disciplined(prev: Option<PoolState>, next: PoolState, now: int) {
    && (next.degenerate ==> next.anchor == 0)
    && (next.anchor == 0 || next.anchor == if WasBreached(prev) then prev.value.anchor else now)
  }

  /** The anchor rule keeps the discipline except when a breach held open by a reserves update
      rises again at another time: then the anchor moves although the breach never closed. */
  lemma AnchorRuleIsDisciplined(prev: Option<PoolState>, next: PoolState, isVirtual: bool, now: int, source: string)
    requires now > 0 && (prev.Some? ==> prev.value.anchor >= 0)
    requires next.anchor == NextDeviationBreachStartedAt(prev, next, isVirtual, now, source)
    ensures Disciplined(prev, next, now) <==>
      !(prev.Some? && prev.value.anchor > 0 && !OutOfTolerance(prev.value, isVirtual) && OutOfTolerance(next, isVirtual) && prev.value.anchor != now)
  {
  }
}
