/** The swap history of the volume pages and sums over it. Everything the rollup tables
    store incrementally has its from-scratch meaning here. */
module VolumeHistory {
  import opened Sums

  const SECONDS_PER_DAY := 86400

  function DayBucket(timestamp: nat): nat {
    timestamp / SECONDS_PER_DAY * SECONDS_PER_DAY
  }

  /** One swap event. `aggregator` and `actor` are the outcomes of the address
      classification; `volume` is the USD value computed for the swap, 0 if unknown. */
  datatype Swap = Swap(
    chain: int, caller: string, txTo: string, pool: string, lpFee: int, protocolFee: int,
    amount0In: nat, amount0Out: nat, amount1In: nat, amount1Out: nat,
    volume: nat, aggregator: string, actor: bool, timestamp: nat, block: nat)
  {
    function Day(): nat { DayBucket(timestamp) }
  }

  datatype TraderKey = TraderKey(chain: int, trader: string)
  datatype TraderDayKey = TraderDayKey(chain: int, trader: string, day: int)
  datatype TraderPoolKey = TraderPoolKey(chain: int, trader: string, pool: string, day: int)
  datatype AggTraderKey = AggTraderKey(chain: int, aggregator: string, trader: string, day: int)
  datatype PoolDayKey = PoolDayKey(chain: int, pool: string, day: int)
  datatype AggDayKey = AggDayKey(chain: int, aggregator: string, day: int)

  function TraderOf(e: Swap): TraderKey { TraderKey(e.chain, e.caller) }
  function TraderDayOf(e: Swap): TraderDayKey { TraderDayKey(e.chain, e.caller, e.Day()) }
  function TraderPoolOf(e: Swap): TraderPoolKey { TraderPoolKey(e.chain, e.caller, e.pool, e.Day()) }
  function AggTraderOf(e: Swap): AggTraderKey { AggTraderKey(e.chain, e.aggregator, e.caller, e.Day()) }
  function PoolDayOf(e: Swap): PoolDayKey { PoolDayKey(e.chain, e.pool, e.Day()) }
  function AggDayOf(e: Swap): AggDayKey { AggDayKey(e.chain, e.aggregator, e.Day()) }

  /** Swaps without a caller or without a USD value never reach the rollups. */
  predicate Accepted(e: Swap) {
    e.caller != "" && e.volume != 0
  }

  function Max0(bps: int): nat { if bps < 0 then 0 else bps }

  function ApplyFeeBps(volume: nat, feeBps: int): nat {
    if feeBps <= 0 then 0 else volume * feeBps / 10000
  }

  function One(e: Swap): int { 1 }
  function Volume(e: Swap): int { e.volume }
  function Fees(e: Swap): int { ApplyFeeBps(e.volume, Max0(e.lpFee) + Max0(e.protocolFee)) }
  function Inflow0(e: Swap): int { if e.amount0Out > 0 then e.volume else 0 }
  function Outflow0(e: Swap): int { if e.amount0In > 0 then e.volume else 0 }
  function Inflow1(e: Swap): int { if e.amount1Out > 0 then e.volume else 0 }
  function Outflow1(e: Swap): int { if e.amount1In > 0 then e.volume else 0 }

  /** Fees are the whole number of the volume's share in basis points, unknown rates counting nothing. */
  lemma FeesMean(e: Swap)
    ensures
      var bps := (if e.lpFee > 0 then e.lpFee else 0) + (if e.protocolFee > 0 then e.protocolFee else 0);
      Fees(e) * 10000 <= e.volume * bps < (Fees(e) + 1) * 10000
  {
  }

  /** A token that only leaves the pool counts as inflow, one that only enters as outflow, each with
      the whole volume; one that does both counts on both sides. */
  lemma FlowsMean(e: Swap)
    ensures Inflow0(e) == (if e.amount0Out == 0 then 0 else e.volume) && Outflow0(e) == (if e.amount0In == 0 then 0 else e.volume)
    ensures Inflow1(e) == (if e.amount1Out == 0 then 0 else e.volume) && Outflow1(e) == (if e.amount1In == 0 then 0 else e.volume)
    ensures (e.amount0In == 0) != (e.amount0Out == 0) && (e.amount1In == 0) != (e.amount1Out == 0) ==>
      Inflow0(e) + Outflow0(e) + Inflow1(e) + Outflow1(e) == 2 * e.volume
  {
  }

  // ---------------------------------------------------------------- groups of events

  /** Accepted events with group key `k`. */
  ghost function InGroup<K>(key: Swap -> K, k: K): Swap -> bool {
    (e: Swap) => Accepted(e) && key(e) == k
  }

  /** A swap at a time of the UTC day that starts at `day`. */
  predicate OnDay(e: Swap, day: int) { day % 86400 == 0 && day <= e.timestamp < day + 86400 }

  /** Which swaps a row of each table is about: those with a caller and a value, of its chain, of its
      UTC day if it has one, and of its trader, pool or aggregator. */
  lemma GroupsMean(e: Swap, trader: TraderKey, traderDay: TraderDayKey, traderPool: TraderPoolKey, aggTrader: AggTraderKey,
      pool: PoolDayKey, agg: AggDayKey)
    ensures
      var counts := e.caller != "" && e.volume > 0;
      && (InGroup(TraderOf, trader)(e) <==> counts && e.chain == trader.chain && e.caller == trader.trader)
      && (InGroup(TraderDayOf, traderDay)(e) <==>
            counts && e.chain == traderDay.chain && e.caller == traderDay.trader && OnDay(e, traderDay.day))
      && (InGroup(TraderPoolOf, traderPool)(e) <==>
            counts && e.chain == traderPool.chain && e.caller == traderPool.trader && e.pool == traderPool.pool && OnDay(e, traderPool.day))
      && (InGroup(AggTraderOf, aggTrader)(e) <==>
            counts && e.chain == aggTrader.chain && e.aggregator == aggTrader.aggregator && e.caller == aggTrader.trader && OnDay(e, aggTrader.day))
      && (InGroup(PoolDayOf, pool)(e) <==> counts && e.chain == pool.chain && e.pool == pool.pool && OnDay(e, pool.day))
      && (InGroup(AggDayOf, agg)(e) <==> counts && e.chain == agg.chain && e.aggregator == agg.aggregator && OnDay(e, agg.day))
  {
    hide DayBucket, OnDay;
    DayIs(e, traderDay.day);
    DayIs(e, traderPool.day);
    DayIs(e, aggTrader.day);
    DayIs(e, pool.day);
    DayIs(e, agg.day);
    InGroupIs(e, TraderOf, trader);
    InGroupIs(e, TraderDayOf, traderDay);
    InGroupIs(e, TraderPoolOf, traderPool);
    InGroupIs(e, AggTraderOf, aggTrader);
    InGroupIs(e, PoolDayOf, pool);
    InGroupIs(e, AggDayOf, agg);
  }

  lemma InGroupIs<K>(e: Swap, key: Swap -> K, k: K)
    ensures InGroup(key, k)(e) <==> Accepted(e) && key(e) == k
  {
  }

  lemma DayIs(e: Swap, day: int)
    ensures e.Day() == day <==> OnDay(e, day)
  {
  }

  /** Accepted events with group key `k` whose trader-day is not in `flagged`. */
  ghost function InGroupBut<K>(key: Swap -> K, k: K, flagged: set<TraderDayKey>): Swap -> bool {
    (e: Swap) => Accepted(e) && key(e) == k && TraderDayOf(e) !in flagged
  }

  /** Accepted events with group key `k` on trader-day `td`. */
  ghost function InGroupBy<K>(key: Swap -> K, k: K, td: TraderDayKey): Swap -> bool {
    (e: Swap) => Accepted(e) && key(e) == k && TraderDayOf(e) == td
  }

  ghost function KeysOf<K>(h: seq<Swap>, key: Swap -> K): set<K> {
    set e | e in h && Accepted(e) :: key(e)
  }

  lemma KeysOfAppend<K>(h: seq<Swap>, e: Swap, key: Swap -> K)
    ensures KeysOf(h + [e], key) == KeysOf(h, key) + (if Accepted(e) then {key(e)} else {})
  {
    forall k ensures k in KeysOf(h + [e], key) <==> k in KeysOf(h, key) + (if Accepted(e) then {key(e)} else {}) {
      if k in KeysOf(h, key) {
        var x :| x in h && Accepted(x) && key(x) == k;
        assert x in h + [e];
      }
      if Accepted(e) && k == key(e) { assert e in h + [e]; }
    }
  }

  /** Trader-days on which some accepted swap was classified as a protocol actor's. */
  ghost function Flagged(h: seq<Swap>): set<TraderDayKey> {
    set e | e in h && Accepted(e) && e.actor :: TraderDayOf(e)
  }

  lemma FlaggedAppend(h: seq<Swap>, e: Swap)
    ensures Flagged(h + [e]) == Flagged(h) + (if Accepted(e) && e.actor then {TraderDayOf(e)} else {})
  {
    forall k ensures k in Flagged(h + [e]) <==> k in Flagged(h) + (if Accepted(e) && e.actor then {TraderDayOf(e)} else {}) {
      if k in Flagged(h) {
        var x :| x in h && Accepted(x) && x.actor && TraderDayOf(x) == k;
        assert x in h + [e];
      }
      if Accepted(e) && e.actor && k == TraderDayOf(e) { assert e in h + [e]; }
    }
  }

  /** How one more event moves a sum over unflagged trader-days: a trader-day flagged for
      the first time takes all its earlier events out of the sum. */
  lemma PrimaryStep<K>(h: seq<Swap>, e: Swap, key: Swap -> K, k: K, value: Swap -> int)
    ensures
      var before, after := Flagged(h), Flagged(h + [e]);
      var td := TraderDayOf(e);
      SumOf(h + [e], InGroupBut(key, k, after), value) ==
        SumOf(h, InGroupBut(key, k, before), value)
        - (if td in after - before then SumOf(h, InGroupBy(key, k, td), value) else 0)
        + (if Accepted(e) && key(e) == k && td !in after then value(e) else 0)
  {
    var before, after, td := Flagged(h), Flagged(h + [e]), TraderDayOf(e);
    FlaggedAppend(h, e);
    SumOfAppend(h, e, InGroupBut(key, k, after), value);
    if td in after - before {
      SumOfSplit(h, InGroupBut(key, k, before), InGroupBut(key, k, after), InGroupBy(key, k, td), value);
    } else {
      assert after == before;
    }
  }

  /** The traders with an accepted event in the group that are not flagged on its day. */
  ghost function TradersBut(h: seq<Swap>, k: AggDayKey, flagged: set<TraderDayKey>): set<string> {
    set e | e in h && Accepted(e) && AggDayOf(e) == k && TraderDayOf(e) !in flagged :: e.caller
  }

  lemma TradersButAppend(h: seq<Swap>, e: Swap, k: AggDayKey, flagged: set<TraderDayKey>)
    ensures TradersBut(h + [e], k, flagged) ==
      TradersBut(h, k, flagged) + (if Accepted(e) && AggDayOf(e) == k && TraderDayOf(e) !in flagged then {e.caller} else {})
  {
    var added := if Accepted(e) && AggDayOf(e) == k && TraderDayOf(e) !in flagged then {e.caller} else {};
    forall t ensures t in TradersBut(h + [e], k, flagged) <==> t in TradersBut(h, k, flagged) + added {
      if t in TradersBut(h, k, flagged) {
        var x :| x in h && Accepted(x) && AggDayOf(x) == k && TraderDayOf(x) !in flagged && x.caller == t;
        assert x in h + [e];
      }
      if t in added { assert e in h + [e]; }
    }
  }

  /** Flagging one more trader-day takes that trader, and nobody else, out of its day's groups. */
  lemma TradersButFlag(h: seq<Swap>, k: AggDayKey, flagged: set<TraderDayKey>, td: TraderDayKey)
    ensures TradersBut(h, k, flagged + {td}) ==
      TradersBut(h, k, flagged) - (if k.chain == td.chain && k.day == td.day then {td.trader} else {})
  {
    var less := TradersBut(h, k, flagged) - (if k.chain == td.chain && k.day == td.day then {td.trader} else {});
    forall t ensures t in TradersBut(h, k, flagged + {td}) <==> t in less {
      if t in less {
        var x :| x in h && Accepted(x) && AggDayOf(x) == k && TraderDayOf(x) !in flagged && x.caller == t;
        assert TraderDayOf(x) != td;
      }
    }
  }
}
