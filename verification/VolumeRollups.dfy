/** The rollup tables one swap updates, and the row arithmetic of each update. */
module VolumeRollups {
  import opened Ordering
  import opened Outcomes
  import opened Sums
  import opened VolumeHistory

  datatype TraderDay = TraderDay(
    swapCount: int, uniquePools: int, aggregatorKeys: seq<string>, poolIds: seq<string>,
    volume: int, fees: int, actor: bool, lastSeen: int)
  datatype TraderAllTime = TraderAllTime(volume: int, swapCount: int, actor: bool, updatedAt: int)
  datatype TraderPoolDay = TraderPoolDay(
    swapCount: int, volume: int, inflow0: int, outflow0: int, inflow1: int, outflow1: int, fees: int)
  datatype PoolDay = PoolDay(
    swapCount: int, swapCountAll: int, volume: int, volumeAll: int, block: int, updatedAt: int)
  datatype AggDay = AggDay(
    lastSeenAddress: string, swapCount: int, swapCountAll: int, uniqueTraders: int, uniqueTradersAll: int,
    volume: int, volumeAll: int, fees: int, feesAll: int)
  datatype AggMarker = AggMarker(swapCount: int, volume: int, fees: int, actor: bool)

  const EMPTY_TRADER_DAY := TraderDay(0, 0, [], [], 0, 0, false, 0)
  const EMPTY_ALL_TIME := TraderAllTime(0, 0, false, 0)
  const EMPTY_TRADER_POOL_DAY := TraderPoolDay(0, 0, 0, 0, 0, 0, 0)
  const EMPTY_POOL_DAY := PoolDay(0, 0, 0, 0, 0, 0)
  const EMPTY_AGG_DAY := AggDay("", 0, 0, 0, 0, 0, 0, 0, 0)
  const EMPTY_AGG_MARKER := AggMarker(0, 0, 0, false)

  datatype PoolCorrection = PoolCorrection(swapCount: int, volume: int)
  datatype AggCorrection = AggCorrection(swapCount: int, uniqueTraders: int, volume: int, fees: int)

  const NO_POOL_CORRECTION := PoolCorrection(0, 0)
  const NO_AGG_CORRECTION := AggCorrection(0, 0, 0, 0)

  /** The seven tables, as one value. */
  datatype Tables = Tables(
    poolMarkers: set<TraderPoolKey>,
    aggMarkers: map<AggTraderKey, AggMarker>,
    traderDays: map<TraderDayKey, TraderDay>,
    allTime: map<TraderKey, TraderAllTime>,
    traderPoolDays: map<TraderPoolKey, TraderPoolDay>,
    poolDays: map<PoolDayKey, PoolDay>,
    aggDays: map<AggDayKey, AggDay>)

  const NO_TABLES := Tables({}, map[], map[], map[], map[], map[], map[])

  function AppendUnique(values: seq<string>, value: string): seq<string> {
    if value in values then values else Sort(values + [value], StringLeq)
  }

  /** Subtraction clamped at zero, for counts and for amounts. */
  function Subtract(value: int, amount: int): (rest: int)
    ensures rest >= 0 && rest >= value - amount && (rest == 0 || rest == value - amount)
  {
    if value > amount then value - amount else 0
  }

  // ---------------------------------------------------------------- row updates

  function NextTraderDay(existing: Option<TraderDay>, e: Swap, firstTouch: bool): TraderDay {
    var prev := OrElse(existing, EMPTY_TRADER_DAY);
    TraderDay(
      prev.swapCount + 1,
      prev.uniquePools + (if firstTouch then 1 else 0),
      AppendUnique(prev.aggregatorKeys, e.aggregator),
      AppendUnique(prev.poolIds, e.pool),
      prev.volume + e.volume,
      prev.fees + Fees(e),
      prev.actor || e.actor,
      e.timestamp)
  }

  /** The trader was seen earlier today, unflagged, and this swap flags them. */
  predicate BecameActor(existing: Option<TraderDay>, e: Swap) {
    existing.Some? && !existing.value.actor && e.actor
  }

  function NextAllTime(existing: Option<TraderAllTime>, e: Swap): TraderAllTime {
    var prev := OrElse(existing, EMPTY_ALL_TIME);
    TraderAllTime(prev.volume + e.volume, prev.swapCount + 1, prev.actor || e.actor, e.timestamp)
  }

  function NextTraderPoolDay(existing: Option<TraderPoolDay>, e: Swap): TraderPoolDay {
    var prev := OrElse(existing, EMPTY_TRADER_POOL_DAY);
    TraderPoolDay(
      prev.swapCount + 1, prev.volume + e.volume,
      prev.inflow0 + Inflow0(e), prev.outflow0 + Outflow0(e),
      prev.inflow1 + Inflow1(e), prev.outflow1 + Outflow1(e),
      prev.fees + Fees(e))
  }

  function CorrectedPoolDay(row: PoolDay, c: PoolCorrection, e: Swap): PoolDay {
    row.(swapCount := Subtract(row.swapCount, c.swapCount),
         volume := Subtract(row.volume, c.volume),
         block := e.block, updatedAt := e.timestamp)
  }

  function NextPoolDay(existing: Option<PoolDay>, c: PoolCorrection, e: Swap, actor: bool): PoolDay {
    var prev := OrElse(existing, EMPTY_POOL_DAY);
    PoolDay(
      Subtract(prev.swapCount, c.swapCount) + (if actor then 0 else 1),
      prev.swapCountAll + 1,
      Subtract(prev.volume, c.volume) + (if actor then 0 else e.volume),
      prev.volumeAll + e.volume,
      e.block, e.timestamp)
  }

  function CorrectedAggDay(row: AggDay, c: AggCorrection): AggDay {
    row.(swapCount := Subtract(row.swapCount, c.swapCount),
         uniqueTraders := Subtract(row.uniqueTraders, c.uniqueTraders),
         volume := Subtract(row.volume, c.volume),
         fees := Subtract(row.fees, c.fees))
  }

  function NextAggDay(existing: Option<AggDay>, c: AggCorrection, e: Swap, actor: bool, firstTouch: bool): AggDay {
    var prev := OrElse(existing, EMPTY_AGG_DAY);
    AggDay(
      e.txTo,
      Subtract(prev.swapCount, c.swapCount) + (if actor then 0 else 1),
      prev.swapCountAll + 1,
      Subtract(prev.uniqueTraders, c.uniqueTraders) + (if !actor && firstTouch then 1 else 0),
      prev.uniqueTradersAll + (if firstTouch then 1 else 0),
      Subtract(prev.volume, c.volume) + (if actor then 0 else e.volume),
      prev.volumeAll + e.volume,
      Subtract(prev.fees, c.fees) + (if actor then 0 else Fees(e)),
      prev.feesAll + Fees(e))
  }

  function NextAggMarker(existing: Option<AggMarker>, e: Swap, actor: bool): AggMarker {
    var prev := OrElse(existing, EMPTY_AGG_MARKER);
    AggMarker(prev.swapCount + 1, prev.volume + e.volume, prev.fees + Fees(e), prev.actor || actor)
  }

  // ---------------------------------------------------------------- corrections

  /** What the newly flagged trader contributed today, per touched pool. `current` is the
      trader's row on the pool of this swap as it was before this swap. */
  function PoolCorrections(rows: map<TraderPoolKey, TraderPoolDay>, e: Swap, poolIds: seq<string>,
      current: Option<TraderPoolDay>): map<string, PoolCorrection>
  {
    map p | p in poolIds && PriorOnPool(rows, e, p, current).Some? ::
      var row := PriorOnPool(rows, e, p, current).value;
      PoolCorrection(row.swapCount, row.volume)
  }

  function PriorOnPool(rows: map<TraderPoolKey, TraderPoolDay>, e: Swap, pool: string,
      current: Option<TraderPoolDay>): Option<TraderPoolDay>
  {
    if pool == e.pool then current else Lookup(rows, TraderPoolKey(e.chain, e.caller, pool, e.Day()))
  }

  /** The other pools' rows of the day after their corrections. */
  function CorrectPoolDays(rows: map<PoolDayKey, PoolDay>, e: Swap, corrections: map<string, PoolCorrection>): map<PoolDayKey, PoolDay> {
    map k | k in rows ::
      if k.chain == e.chain && k.day == e.Day() && k.pool != e.pool && k.pool in corrections
      then CorrectedPoolDay(rows[k], corrections[k.pool], e) else rows[k]
  }

  function AggCorrections(markers: map<AggTraderKey, AggMarker>, e: Swap, aggregators: seq<string>,
      current: Option<AggMarker>): map<string, AggCorrection>
  {
    map a | a in aggregators && PriorOnAgg(markers, e, a, current).Some? && !PriorOnAgg(markers, e, a, current).value.actor ::
      var m := PriorOnAgg(markers, e, a, current).value;
      AggCorrection(m.swapCount, 1, m.volume, m.fees)
  }

  function PriorOnAgg(markers: map<AggTraderKey, AggMarker>, e: Swap, aggregator: string,
      current: Option<AggMarker>): Option<AggMarker>
  {
    if aggregator == e.aggregator then current
    else Lookup(markers, AggTraderKey(e.chain, aggregator, e.caller, e.Day()))
  }

  function CorrectAggDays(rows: map<AggDayKey, AggDay>, e: Swap, corrections: map<string, AggCorrection>): map<AggDayKey, AggDay> {
    map k | k in rows ::
      if k.chain == e.chain && k.day == e.Day() && k.aggregator != e.aggregator && k.aggregator in corrections
      then CorrectedAggDay(rows[k], corrections[k.aggregator]) else rows[k]
  }

  // ---------------------------------------------------------------- one swap, table by table

  function PutTraderDay(rows: map<TraderDayKey, TraderDay>, markers: set<TraderPoolKey>, e: Swap): map<TraderDayKey, TraderDay> {
    rows[TraderDayOf(e) := NextTraderDay(Lookup(rows, TraderDayOf(e)), e, TraderPoolOf(e) !in markers)]
  }

  function PutAllTime(rows: map<TraderKey, TraderAllTime>, e: Swap): map<TraderKey, TraderAllTime> {
    rows[TraderOf(e) := NextAllTime(Lookup(rows, TraderOf(e)), e)]
  }

  function PutTraderPoolDay(rows: map<TraderPoolKey, TraderPoolDay>, e: Swap): map<TraderPoolKey, TraderPoolDay> {
    rows[TraderPoolOf(e) := NextTraderPoolDay(Lookup(rows, TraderPoolOf(e)), e)]
  }

  function PutPoolDay(rows: map<PoolDayKey, PoolDay>, e: Swap, corrections: map<string, PoolCorrection>, actor: bool): map<PoolDayKey, PoolDay> {
    CorrectPoolDays(rows, e, corrections)[PoolDayOf(e) :=
      NextPoolDay(Lookup(rows, PoolDayOf(e)), OrElse(Lookup(corrections, e.pool), NO_POOL_CORRECTION), e, actor)]
  }

  function PutAggDay(rows: map<AggDayKey, AggDay>, e: Swap, corrections: map<string, AggCorrection>, actor: bool, firstTouch: bool): map<AggDayKey, AggDay> {
    CorrectAggDays(rows, e, corrections)[AggDayOf(e) :=
      NextAggDay(Lookup(rows, AggDayOf(e)), OrElse(Lookup(corrections, e.aggregator), NO_AGG_CORRECTION), e, actor, firstTouch)]
  }

  function PutAggMarker(rows: map<AggTraderKey, AggMarker>, e: Swap, actor: bool): map<AggTraderKey, AggMarker> {
    rows[AggTraderOf(e) := NextAggMarker(Lookup(rows, AggTraderOf(e)), e, actor)]
  }

  /** The corrections this swap makes: none unless it flags a trader seen earlier today. */
  function PoolCorrectionsOf(traderDay: Option<TraderDay>, rows: map<TraderPoolKey, TraderPoolDay>, e: Swap): map<string, PoolCorrection> {
    if BecameActor(traderDay, e)
    then PoolCorrections(rows, e, AppendUnique(traderDay.value.poolIds, e.pool), Lookup(rows, TraderPoolOf(e)))
    else map[]
  }

  function AggCorrectionsOf(traderDay: Option<TraderDay>, markers: map<AggTraderKey, AggMarker>, e: Swap): map<string, AggCorrection> {
    if BecameActor(traderDay, e)
    then AggCorrections(markers, e, AppendUnique(traderDay.value.aggregatorKeys, e.aggregator), Lookup(markers, AggTraderOf(e)))
    else map[]
  }

  function ActorAfter(traderDay: Option<TraderDay>, e: Swap): bool {
    OrElse(traderDay, EMPTY_TRADER_DAY).actor || e.actor
  }

  /** Every table but the lifetime rollup, which waits for the window flush. */
  function DailyTablesAfter(t: Tables, e: Swap): Tables {
    var traderDay := Lookup(t.traderDays, TraderDayOf(e));
    var actor := ActorAfter(traderDay, e);
    Tables(
      t.poolMarkers + {TraderPoolOf(e)},
      PutAggMarker(t.aggMarkers, e, actor),
      PutTraderDay(t.traderDays, t.poolMarkers, e),
      t.allTime,
      PutTraderPoolDay(t.traderPoolDays, e),
      PutPoolDay(t.poolDays, e, PoolCorrectionsOf(traderDay, t.traderPoolDays, e), actor),
      PutAggDay(t.aggDays, e, AggCorrectionsOf(traderDay, t.aggMarkers, e), actor, AggTraderOf(e) !in t.aggMarkers))
  }

  function TablesAfter(t: Tables, e: Swap): Tables {
    if !Accepted(e) then t else DailyTablesAfter(t, e).(allTime := PutAllTime(t.allTime, e))
  }

  // ---------------------------------------------------------------- meaning of the tables

  /** `e` is the latest accepted event of group `k`. */
  ghost predicate IsLastOf<K>(h: seq<Swap>, key: Swap -> K, k: K, e: Swap) {
    exists i :: 0 <= i < |h| && h[i] == e && InGroup(key, k)(e) && forall j :: i < j < |h| ==> !InGroup(key, k)(h[j])
  }

  ghost function PoolsOn(h: seq<Swap>, k: TraderDayKey): set<string> {
    set e | e in h && Accepted(e) && TraderDayOf(e) == k :: e.pool
  }

  ghost function AggregatorsOn(h: seq<Swap>, k: TraderDayKey): set<string> {
    set e | e in h && Accepted(e) && TraderDayOf(e) == k :: e.aggregator
  }

  ghost predicate ActorEver(h: seq<Swap>, k: TraderKey) {
    exists e :: e in h && Accepted(e) && TraderOf(e) == k && e.actor
  }

  /** The row is what the trader's own events of the day add up to. */
  ghost predicate TraderDayRow(row: TraderDay, k: TraderDayKey, h: seq<Swap>) {
    && row.swapCount == SumOf(h, InGroup(TraderDayOf, k), One)
    && row.volume == SumOf(h, InGroup(TraderDayOf, k), Volume)
    && row.fees == SumOf(h, InGroup(TraderDayOf, k), Fees)
    && row.actor == (k in Flagged(h))
    && Lists(row.poolIds, PoolsOn(h, k)) && row.uniquePools == |PoolsOn(h, k)|
    && Lists(row.aggregatorKeys, AggregatorsOn(h, k))
    && exists e :: IsLastOf(h, TraderDayOf, k, e) && row.lastSeen == e.timestamp
  }

  ghost predicate AllTimeRow(row: TraderAllTime, k: TraderKey, h: seq<Swap>) {
    && row.swapCount == SumOf(h, InGroup(TraderOf, k), One)
    && row.volume == SumOf(h, InGroup(TraderOf, k), Volume)
    && row.actor == ActorEver(h, k)
    && exists e :: IsLastOf(h, TraderOf, k, e) && row.updatedAt == e.timestamp
  }

  ghost predicate TraderPoolDayRow(row: TraderPoolDay, k: TraderPoolKey, h: seq<Swap>) {
    var p := InGroup(TraderPoolOf, k);
    && row.swapCount == SumOf(h, p, One) && row.volume == SumOf(h, p, Volume) && row.fees == SumOf(h, p, Fees)
    && row.inflow0 == SumOf(h, p, Inflow0) && row.outflow0 == SumOf(h, p, Outflow0)
    && row.inflow1 == SumOf(h, p, Inflow1) && row.outflow1 == SumOf(h, p, Outflow1)
  }

  /** Pool-day totals: everybody's in the `All` columns, unflagged trader-days' otherwise. */
  ghost predicate PoolDayRow(row: PoolDay, k: PoolDayKey, h: seq<Swap>) {
    && row.swapCountAll == SumOf(h, InGroup(PoolDayOf, k), One)
    && row.volumeAll == SumOf(h, InGroup(PoolDayOf, k), Volume)
    && row.swapCount == SumOf(h, InGroupBut(PoolDayOf, k, Flagged(h)), One)
    && row.volume == SumOf(h, InGroupBut(PoolDayOf, k, Flagged(h)), Volume)
  }

  ghost predicate AggDayRow(row: AggDay, k: AggDayKey, h: seq<Swap>) {
    && row.swapCountAll == SumOf(h, InGroup(AggDayOf, k), One)
    && row.volumeAll == SumOf(h, InGroup(AggDayOf, k), Volume)
    && row.feesAll == SumOf(h, InGroup(AggDayOf, k), Fees)
    && row.uniqueTradersAll == |TradersBut(h, k, {})|
    && row.swapCount == SumOf(h, InGroupBut(AggDayOf, k, Flagged(h)), One)
    && row.volume == SumOf(h, InGroupBut(AggDayOf, k, Flagged(h)), Volume)
    && row.fees == SumOf(h, InGroupBut(AggDayOf, k, Flagged(h)), Fees)
    && row.uniqueTraders == |TradersBut(h, k, Flagged(h))|
    && exists e :: IsLastOf(h, AggDayOf, k, e) && row.lastSeenAddress == e.txTo
  }

  /** By the last swap of the group the trader-day was flagged. */
  ghost predicate FlaggedByLast(h: seq<Swap>, k: AggTraderKey) {
    exists i :: 0 <= i < |h| && InGroup(AggTraderOf, k)(h[i]) && TraderDayKey(k.chain, k.trader, k.day) in Flagged(h[..i + 1])
  }

  /** A marker keeps its trader's own totals; its flag is the trader-day's as of the group's last swap,
      so it may lag behind, never ahead. */
  ghost predicate AggMarkerRow(row: AggMarker, k: AggTraderKey, h: seq<Swap>) {
    && row.swapCount == SumOf(h, InGroup(AggTraderOf, k), One)
    && row.volume == SumOf(h, InGroup(AggTraderOf, k), Volume)
    && row.fees == SumOf(h, InGroup(AggTraderOf, k), Fees)
    && (row.actor <==> FlaggedByLast(h, k)) && (row.actor ==> TraderDayKey(k.chain, k.trader, k.day) in Flagged(h))
  }

  ghost predicate TraderDaysAgree(rows: map<TraderDayKey, TraderDay>, h: seq<Swap>) {
    rows.Keys == KeysOf(h, TraderDayOf) && forall k :: k in rows ==> TraderDayRow(rows[k], k, h)
  }

  ghost predicate AllTimeAgrees(rows: map<TraderKey, TraderAllTime>, h: seq<Swap>) {
    rows.Keys == KeysOf(h, TraderOf) && forall k :: k in rows ==> AllTimeRow(rows[k], k, h)
  }

  ghost predicate TraderPoolDaysAgree(rows: map<TraderPoolKey, TraderPoolDay>, h: seq<Swap>) {
    rows.Keys == KeysOf(h, TraderPoolOf) && forall k :: k in rows ==> TraderPoolDayRow(rows[k], k, h)
  }

  ghost predicate PoolDaysAgree(rows: map<PoolDayKey, PoolDay>, h: seq<Swap>) {
    rows.Keys == KeysOf(h, PoolDayOf) && forall k :: k in rows ==> PoolDayRow(rows[k], k, h)
  }

  ghost predicate AggDaysAgree(rows: map<AggDayKey, AggDay>, h: seq<Swap>) {
    rows.Keys == KeysOf(h, AggDayOf) && forall k :: k in rows ==> AggDayRow(rows[k], k, h)
  }

  ghost predicate AggMarkersAgree(rows: map<AggTraderKey, AggMarker>, h: seq<Swap>) {
    rows.Keys == KeysOf(h, AggTraderOf) && forall k :: k in rows ==> AggMarkerRow(rows[k], k, h)
  }

  /** The tables are what a recomputation from the whole history would store. */
  ghost predicate Agree(t: Tables, h: seq<Swap>) {
    && t.poolMarkers == KeysOf(h, TraderPoolOf)
    && TraderDaysAgree(t.traderDays, h) && AllTimeAgrees(t.allTime, h) && TraderPoolDaysAgree(t.traderPoolDays, h)
    && PoolDaysAgree(t.poolDays, h) && AggDaysAgree(t.aggDays, h) && AggMarkersAgree(t.aggMarkers, h)
  }
}
