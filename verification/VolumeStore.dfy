/** The entity store the volume handlers read and overwrite, and the handlers themselves. */
module VolumeStore {
  import opened Ordering
  import opened Outcomes
  import opened VolumeHistory
  import opened VolumeRollups
  import opened VolumeWindow
  import opened VolumeFlush
  import opened VolumeListings

  predicate LowerCase(s: string) { AsAddress(s) == s }

  ghost predicate LowerCaseTables(t: Tables) {
    && (forall k :: k in t.traderDays ==> LowerCase(k.trader))
    && (forall k :: k in t.allTime ==> LowerCase(k.trader))
  }

  /** The current swap's own row is read before it is written, so writing it first is harmless. */
  lemma CorrectionsIgnoreOwnRow(rows: map<TraderPoolKey, TraderPoolDay>, e: Swap, poolIds: seq<string>, current: Option<TraderPoolDay>)
    ensures PoolCorrections(PutTraderPoolDay(rows, e), e, poolIds, current) == PoolCorrections(rows, e, poolIds, current)
  {
    hide NextTraderPoolDay;
    forall p ensures PriorOnPool(PutTraderPoolDay(rows, e), e, p, current) == PriorOnPool(rows, e, p, current) {}
  }

  lemma {:induction false} FlushDaysAppend(windows: map<WindowKey, WindowRow>, t: Tables, chain: int, days: seq<int>, day: int, block: int, updatedAt: int)
    ensures FlushDays(windows, t, chain, days + [day], block, updatedAt) ==
      FlushDay(FlushDays(windows, t, chain, days, block, updatedAt), t, chain, day, block, updatedAt)
  {
    assert (days + [day])[..|days|] == days;
  }

  lemma NoElements()
    ensures Elements<Window>(WINDOW_KEYS[..0]) == {}
    ensures Elements(WINDOW_KEYS) == {W24h, W7d, W30d, W90d, WAll}
  {
  }

  class VolumeStore {
    var poolMarkers: set<TraderPoolKey>
    var aggMarkers: map<AggTraderKey, AggMarker>
    var traderDays: map<TraderDayKey, TraderDay>
    var allTime: map<TraderKey, TraderAllTime>
    var traderPoolDays: map<TraderPoolKey, TraderPoolDay>
    var poolDays: map<PoolDayKey, PoolDay>
    var aggDays: map<AggDayKey, AggDay>
    var chainStates: map<int, ChainState>
    var windows: map<WindowKey, WindowRow>

    ghost function Now(): Tables
      reads this
    {
      Tables(poolMarkers, aggMarkers, traderDays, allTime, traderPoolDays, poolDays, aggDays)
    }

    ghost function View(): Store
      reads this
    {
      Store(Now(), chainStates, windows)
    }

    constructor ()
      ensures View() == EMPTY_STORE
    {
      poolMarkers, aggMarkers, traderDays, allTime := {}, map[], map[], map[];
      traderPoolDays, poolDays, aggDays := map[], map[], map[];
      chainStates, windows := map[], map[];
    }

    // -------------------------------------------------------------- queries

    /** The daily rows of a chain from a day on, in no particular order. */
    method DailyRowsWhere(chain: int, from: int) returns (rows: seq<DailyRow>)
      ensures ListsRows(rows, DaysSince(traderDays, chain, from), DailyAt(traderDays))
    {
      hide ListedBy, Elements;
      var todo := set k | k in traderDays && k.chain == chain && from <= k.day;
      assert todo == DaysSince(traderDays, chain, from);
      rows := [];
      ghost var keys: seq<TraderDayKey> := [];
      NothingListed(DailyAt(traderDays));
      while todo != {}
        invariant ListedBy(rows, keys, DailyAt(traderDays))
        invariant Elements(keys) + todo == DaysSince(traderDays, chain, from) && Elements(keys) !! todo
        decreases |todo|
      {
        var k :| k in todo;
        ListedNext(rows, keys, DailyAt(traderDays), todo, k);
        rows := rows + [DailyRowOf(k, traderDays[k])];
        keys := keys + [k];
        todo := todo - {k};
      }
    }

    method AllTimeRowsWhere(chain: int) returns (rows: seq<LifetimeRow>)
      ensures ListsRows(rows, LifetimeKeys(allTime, chain), LifetimeAt(allTime))
    {
      hide ListedBy, Elements;
      var todo := set k | k in allTime && k.chain == chain;
      assert todo == LifetimeKeys(allTime, chain);
      rows := [];
      ghost var keys: seq<TraderKey> := [];
      NothingListed(LifetimeAt(allTime));
      while todo != {}
        invariant ListedBy(rows, keys, LifetimeAt(allTime))
        invariant Elements(keys) + todo == LifetimeKeys(allTime, chain) && Elements(keys) !! todo
        decreases |todo|
      {
        var k :| k in todo;
        ListedNext(rows, keys, LifetimeAt(allTime), todo, k);
        rows := rows + [LifetimeRow(k.chain, k.trader, allTime[k].volume, allTime[k].swapCount, allTime[k].actor)];
        keys := keys + [k];
        todo := todo - {k};
      }
    }

    // -------------------------------------------------------------- the window flush

    method FlushV3VolumeWindowSnapshots(chain: int, day: int, block: int, updatedAt: int)
      requires LowerCaseTables(Now())
      modifies this`windows
      ensures windows == FlushDay(old(windows), Now(), chain, day, block, updatedAt)
    {
      hide AggMap, LifetimeAggs, DailyAggs, RowFrom, WindowStartDay, Names, ListsRows, DaysSince, LifetimeKeys, LowerCaseTables, IsAggOf, AsAddress, WrittenSoFar, AggregatesOf, Elements, FlushDay, AllTimeToWindowAggregates, FlushedRow, WindowAggs, Distinct;
      var rows := DailyRowsWhere(chain, WindowStartDay(day, W90d));
      var allTimeRows := AllTimeRowsWhere(chain);
      var grouped := AggregatePerWindow(rows, chain, day);
      var allAggregates := AllTimeToWindowAggregates(allTimeRows, chain);
      ghost var t := Now();
      NothingWritten(windows, t, chain, day, block, updatedAt);
      assert Elements(WINDOW_KEYS[..0]) == {} by { NoElements(); }
      for i := 0 to |WINDOW_KEYS|
        invariant Now() == t
        invariant windows == WrittenSoFar(old(windows), t, chain, day, block, updatedAt, Elements(WINDOW_KEYS[..i]))
      {
        var w := WINDOW_KEYS[i];
        InElements(w, WINDOW_KEYS);
        var aggs := if w == WAll then allAggregates else grouped[w];
        FiguresOfWindow(aggs, t, rows, allTimeRows, chain, day, w);
        RowOfFigures(aggs, t, chain, day, w, block, updatedAt);
        WriteOne(old(windows), t, chain, day, block, updatedAt, Elements(WINDOW_KEYS[..i]), w);
        var snap := BuildVolumeWindowSnapshot(aggs, chain, w, day, WindowStartDay(day, w), block, updatedAt);
        windows := windows[WindowKey(chain, w, day) := snap];
        assert WINDOW_KEYS[..i + 1] == WINDOW_KEYS[..i] + [w];
        DistinctAppend(WINDOW_KEYS[..i], w);
      }
      AllWindowsWritten(old(windows), t, chain, day, block, updatedAt);
    }

    static lemma FiguresOfWindow(aggs: seq<TraderAgg>, t: Tables, rows: seq<DailyRow>, allTimeRows: seq<LifetimeRow>,
        chain: int, day: int, w: Window)
      requires LowerCaseTables(t)
      requires ListsRows(rows, DaysSince(t.traderDays, chain, WindowStartDay(day, W90d)), DailyAt(t.traderDays))
      requires ListsRows(allTimeRows, LifetimeKeys(t.allTime, chain), LifetimeAt(t.allTime))
      requires if w == WAll then aggs == AllTimeToWindowAggregates(allTimeRows, chain) else AggregatesOf(aggs, rows, chain, day, w)
      ensures Distinct(Names(aggs)) && AggMap(aggs) == WindowAggs(t, chain, day, w)
      ensures forall a :: a in aggs ==> AsAddress(a.trader) == a.trader
    {
      hide AggMap, LifetimeAggs, DailyAggs, WindowStartDay, Names, ListedBy, DaysSince, LifetimeKeys, LowerCaseTables, AsAddress,
        AggregatesOf, Elements, AllTimeToWindowAggregates;
      if w == WAll {
        var lifetimeKeys :| ListedBy(allTimeRows, lifetimeKeys, LifetimeAt(t.allTime)) && Elements(lifetimeKeys) == LifetimeKeys(t.allTime, chain);
        LifetimeListed(allTimeRows, lifetimeKeys, t.allTime, chain);
      } else {
        var dayKeys :| ListedBy(rows, dayKeys, DailyAt(t.traderDays)) && Elements(dayKeys) == DaysSince(t.traderDays, chain, WindowStartDay(day, W90d));
        ListedAggs(aggs, rows, dayKeys, t.traderDays, chain, day, w);
      }
      AggregatesLowerCase(aggs, t, chain, day, w);
    }

    static lemma RowOfFigures(aggs: seq<TraderAgg>, t: Tables, chain: int, day: int, w: Window, block: int, updatedAt: int)
      requires Distinct(Names(aggs)) && AggMap(aggs) == WindowAggs(t, chain, day, w)
      ensures RowFrom(AggMap(aggs), chain, w, day, block, updatedAt) == FlushedRow(t, WindowKey(chain, w, day), block, updatedAt)
    {
      hide AggMap, WindowAggs, RowFrom;
    }

    static ghost function WrittenSoFar(windows: map<WindowKey, WindowRow>, t: Tables, chain: int, day: int, block: int, updatedAt: int, done: set<Window>): map<WindowKey, WindowRow> {
      map k | k in windows.Keys + (set w | w in done :: WindowKey(chain, w, day)) ::
        if k.chain == chain && k.day == day && k.window in done then FlushedRow(t, k, block, updatedAt) else windows[k]
    }

    static lemma WriteOne(windows: map<WindowKey, WindowRow>, t: Tables, chain: int, day: int, block: int, updatedAt: int, done: set<Window>, w: Window)
      ensures WrittenSoFar(windows, t, chain, day, block, updatedAt, done + {w}) ==
        WrittenSoFar(windows, t, chain, day, block, updatedAt, done)[WindowKey(chain, w, day) := FlushedRow(t, WindowKey(chain, w, day), block, updatedAt)]
    {
      hide FlushedRow;
      forall k: WindowKey | k.chain == chain && k.day == day && k.window == w ensures k == WindowKey(chain, w, day) {}
    }

    static lemma NothingWritten(windows: map<WindowKey, WindowRow>, t: Tables, chain: int, day: int, block: int, updatedAt: int)
      ensures WrittenSoFar(windows, t, chain, day, block, updatedAt, {}) == windows
    {
    }

    static lemma AllWindowsWritten(windows: map<WindowKey, WindowRow>, t: Tables, chain: int, day: int, block: int, updatedAt: int)
      ensures WrittenSoFar(windows, t, chain, day, block, updatedAt, Elements(WINDOW_KEYS[..|WINDOW_KEYS|]))
        == FlushDay(windows, t, chain, day, block, updatedAt)
    {
      hide FlushedRow;
      assert WINDOW_KEYS[..|WINDOW_KEYS|] == WINDOW_KEYS;
      var all := Elements(WINDOW_KEYS);
      assert all == {W24h, W7d, W30d, W90d, WAll};
      assert (set w | w in all :: WindowKey(chain, w, day)) == DayKeys(chain, day);
    }

    static lemma AggregatesLowerCase(aggs: seq<TraderAgg>, t: Tables, chain: int, day: int, w: Window)
      requires LowerCaseTables(t) && Distinct(Names(aggs)) && AggMap(aggs) == WindowAggs(t, chain, day, w)
      ensures forall a :: a in aggs ==> AsAddress(a.trader) == a.trader
    {
      hide DailyAgg, InWindow, AsAddress, WindowStartDay;
      forall a | a in aggs ensures LowerCase(a.trader) {
        var i :| 0 <= i < |aggs| && aggs[i] == a;
        assert Names(aggs)[i] in AggMap(aggs);
      }
    }

    method MaybeHeartbeatFlushV3(chain: int, timestamp: nat, block: int)
      requires LowerCaseTables(Now())
      modifies this`windows, this`chainStates
      ensures View() == Heartbeat(old(View()), chain, timestamp, block)
    {
      hide FlushDay, LowerCaseTables, DayBucket;
      var today := DayBucket(timestamp);
      var existing := Lookup(chainStates, chain);
      var lastFlushedDay := OrElse(existing, NEW_CHAIN).lastFlushedDay;
      var lastClosedDay := today - SECONDS_PER_DAY;
      if lastFlushedDay >= lastClosedDay { return; }
      var startDay := if lastFlushedDay == 0 then lastClosedDay else lastFlushedDay + SECONDS_PER_DAY;
      var d := startDay;
      ghost var t := Now();
      ghost var done: seq<int> := [];
      while d <= lastClosedDay
        invariant Now() == t && chainStates == old(chainStates)
        invariant done + DaysFrom(d, lastClosedDay) == DaysFrom(startDay, lastClosedDay)
        invariant windows == FlushDays(old(windows), t, chain, done, block, timestamp)
        decreases lastClosedDay - d
      {
        FlushV3VolumeWindowSnapshots(chain, d, block, timestamp);
        FlushDaysAppend(old(windows), t, chain, done, d, block, timestamp);
        assert done + [d] + DaysFrom(d + SECONDS_PER_DAY, lastClosedDay) == done + DaysFrom(d, lastClosedDay);
        done := done + [d];
        d := d + SECONDS_PER_DAY;
      }
      assert done == DaysFrom(startDay, lastClosedDay);
      chainStates := chainStates[chain := ChainState(lastClosedDay, OrElse(existing, NEW_CHAIN).lastFlushedDayBroker, timestamp)];
    }

    /** The broker venue's heartbeat, as far as the shared cursor row is concerned. */
    method MoveBrokerCursor(chain: int, timestamp: nat)
      modifies this`chainStates
      ensures View() == After(old(View()), BrokerSwap(chain, timestamp))
    {
      var existing := Lookup(chainStates, chain);
      var lastClosedDay := DayBucket(timestamp) - SECONDS_PER_DAY;
      if OrElse(existing, NEW_CHAIN).lastFlushedDayBroker >= lastClosedDay { return; }
      chainStates := chainStates[chain := ChainState(OrElse(existing, NEW_CHAIN).lastFlushedDay, lastClosedDay, timestamp)];
    }

    // -------------------------------------------------------------- upserts

    method UpsertTraderDailySnapshot(e: Swap, existing: Option<TraderDay>, firstTouch: bool)
      returns (became: bool, actor: bool, aggregatorKeys: seq<string>, poolIds: seq<string>)
      modifies this`traderDays
      ensures traderDays == old(traderDays)[TraderDayOf(e) := NextTraderDay(existing, e, firstTouch)]
      ensures became == BecameActor(existing, e) && actor == ActorAfter(existing, e)
      ensures aggregatorKeys == AppendUnique(OrElse(existing, EMPTY_TRADER_DAY).aggregatorKeys, e.aggregator)
      ensures poolIds == AppendUnique(OrElse(existing, EMPTY_TRADER_DAY).poolIds, e.pool)
    {
      var prev := OrElse(existing, EMPTY_TRADER_DAY);
      actor := prev.actor || e.actor;
      became := existing.Some? && !prev.actor && e.actor;
      aggregatorKeys := AppendUnique(prev.aggregatorKeys, e.aggregator);
      poolIds := AppendUnique(prev.poolIds, e.pool);
      traderDays := traderDays[TraderDayOf(e) := TraderDay(
        prev.swapCount + 1, prev.uniquePools + (if firstTouch then 1 else 0), aggregatorKeys, poolIds,
        prev.volume + e.volume, prev.fees + Fees(e), actor, e.timestamp)];
    }

    method UpsertPoolDailyVolumeSnapshot(e: Swap, existing: Option<PoolDay>, existingTraderPoolDay: Option<TraderPoolDay>,
        became: bool, actor: bool, poolIds: seq<string>)
      requires existing == Lookup(poolDays, PoolDayOf(e))
      modifies this`poolDays
      ensures poolDays == PutPoolDay(old(poolDays), e,
        if became then PoolCorrections(traderPoolDays, e, poolIds, existingTraderPoolDay) else map[], actor)
    {
      var corrections: map<string, PoolCorrection> := map[];
      if became { corrections := CollectPoolPrimaryCorrections(e, poolIds, existingTraderPoolDay); }
      assert poolDays == CorrectPoolDays(old(poolDays), e, corrections);
      var prev := OrElse(existing, EMPTY_POOL_DAY);
      var correction := OrElse(Lookup(corrections, e.pool), NO_POOL_CORRECTION);
      var swapBase := Subtract(prev.swapCount, correction.swapCount);
      var volumeBase := Subtract(prev.volume, correction.volume);
      poolDays := poolDays[PoolDayOf(e) := PoolDay(
        swapBase + (if actor then 0 else 1), prev.swapCountAll + 1,
        volumeBase + (if actor then 0 else e.volume), prev.volumeAll + e.volume, e.block, e.timestamp)];
    }

    static lemma NoAggDaysCorrected(rows: map<AggDayKey, AggDay>, e: Swap)
      ensures CorrectAggDays(rows, e, map[]) == rows
    {
    }

    static lemma AggDayPut(rows: map<AggDayKey, AggDay>, e: Swap, existing: Option<AggDay>, corrections: map<string, AggCorrection>, actor: bool, firstTouch: bool)
      requires existing == Lookup(rows, AggDayOf(e))
      ensures
        var prev, c := OrElse(existing, EMPTY_AGG_DAY), OrElse(Lookup(corrections, e.aggregator), NO_AGG_CORRECTION);
        PutAggDay(rows, e, corrections, actor, firstTouch) == CorrectAggDays(rows, e, corrections)[AggDayOf(e) := AggDay(
          e.txTo,
          Subtract(prev.swapCount, c.swapCount) + (if actor then 0 else 1), prev.swapCountAll + 1,
          Subtract(prev.uniqueTraders, c.uniqueTraders) + (if !actor && firstTouch then 1 else 0), prev.uniqueTradersAll + (if firstTouch then 1 else 0),
          Subtract(prev.volume, c.volume) + (if actor then 0 else e.volume), prev.volumeAll + e.volume,
          Subtract(prev.fees, c.fees) + (if actor then 0 else Fees(e)), prev.feesAll + Fees(e))]
    {
      hide CorrectAggDays, Subtract, Fees;
    }

    /** Gathers what the trader contributed to each pool today, and takes it out of the
        other pools' rows; the current pool's row is left to the caller. */
    method CollectPoolPrimaryCorrections(e: Swap, poolIds: seq<string>, current: Option<TraderPoolDay>)
      returns (corrections: map<string, PoolCorrection>)
      modifies this`poolDays
      ensures corrections == PoolCorrections(traderPoolDays, e, poolIds, current)
      ensures poolDays == CorrectPoolDays(old(poolDays), e, corrections)
    {
      hide PoolCorrections, CorrectPoolDays, PoolDaysCorrectedFor, Elements;
      corrections := map[];
      var touched: seq<string> := [];
      GatherNoPools(traderPoolDays, e, current);
      for i := 0 to |poolIds|
        invariant poolDays == old(poolDays)
        invariant corrections == PoolCorrections(traderPoolDays, e, poolIds[..i], current)
        invariant Elements(touched) == corrections.Keys
      {
        var prior := if poolIds[i] == e.pool then current
                     else Lookup(traderPoolDays, TraderPoolKey(e.chain, e.caller, poolIds[i], e.Day()));
        assert poolIds[..i + 1] == poolIds[..i] + [poolIds[i]];
        GatherPool(traderPoolDays, e, poolIds[..i], poolIds[i], current);
        DistinctAppend(touched, poolIds[i]);
        if prior.Some? {
          if poolIds[i] !in corrections { touched := touched + [poolIds[i]]; }
          corrections := corrections[poolIds[i] := PoolCorrection(prior.value.swapCount, prior.value.volume)];
        }
      }
      assert poolIds[..|poolIds|] == poolIds;
      var read := poolDays;
      PoolDaysCorrectedNone(read, e, corrections, touched[..0]);
      for i := 0 to |touched|
        invariant poolDays == PoolDaysCorrectedFor(read, e, corrections, Elements(touched[..i]))
      {
        var pool := touched[i];
        InElements(pool, touched);
        var key := PoolDayKey(e.chain, pool, e.Day());
        assert touched[..i + 1] == touched[..i] + [pool];
        DistinctAppend(touched[..i], pool);
        if pool != e.pool && key in read {
          poolDays := poolDays[key := CorrectedPoolDay(read[key], corrections[pool], e)];
        }
        PoolDaysCorrectedStep(read, e, corrections, Elements(touched[..i]), pool);
      }
      assert touched[..|touched|] == touched;
      PoolDaysCorrectedAll(read, e, corrections, Elements(touched));
    }

    static lemma GatherNoPools(rows: map<TraderPoolKey, TraderPoolDay>, e: Swap, current: Option<TraderPoolDay>)
      ensures forall none: seq<string> :: none == [] ==> PoolCorrections(rows, e, none, current) == map[] && Elements(none) == {}
    {
    }

    static lemma GatherPool(rows: map<TraderPoolKey, TraderPoolDay>, e: Swap, done: seq<string>, pool: string, current: Option<TraderPoolDay>)
      ensures PoolCorrections(rows, e, done + [pool], current) ==
        match PriorOnPool(rows, e, pool, current)
        case None => PoolCorrections(rows, e, done, current)
        case Some(row) => PoolCorrections(rows, e, done, current)[pool := PoolCorrection(row.swapCount, row.volume)]
    {
      hide PriorOnPool;
    }

    static lemma PoolDaysCorrectedNone(rows: map<PoolDayKey, PoolDay>, e: Swap, corrections: map<string, PoolCorrection>, none: seq<string>)
      requires none == []
      ensures PoolDaysCorrectedFor(rows, e, corrections, Elements(none)) == rows
    {
    }

    static lemma PoolDaysCorrectedAll(rows: map<PoolDayKey, PoolDay>, e: Swap, corrections: map<string, PoolCorrection>, done: set<string>)
      requires done == corrections.Keys
      ensures PoolDaysCorrectedFor(rows, e, corrections, done) == CorrectPoolDays(rows, e, corrections)
    {
    }

    static ghost function PoolDaysCorrectedFor(rows: map<PoolDayKey, PoolDay>, e: Swap, corrections: map<string, PoolCorrection>, done: set<string>): map<PoolDayKey, PoolDay> {
      map k | k in rows ::
        if k.chain == e.chain && k.day == e.Day() && k.pool != e.pool && k.pool in corrections && k.pool in done
        then CorrectedPoolDay(rows[k], corrections[k.pool], e) else rows[k]
    }

    static lemma PoolDaysCorrectedStep(rows: map<PoolDayKey, PoolDay>, e: Swap, corrections: map<string, PoolCorrection>, done: set<string>, pool: string)
      requires pool in corrections
      ensures
        var key := PoolDayKey(e.chain, pool, e.Day());
        PoolDaysCorrectedFor(rows, e, corrections, done + {pool}) ==
          if pool != e.pool && key in rows
          then PoolDaysCorrectedFor(rows, e, corrections, done)[key := CorrectedPoolDay(rows[key], corrections[pool], e)]
          else PoolDaysCorrectedFor(rows, e, corrections, done)
    {
      hide CorrectedPoolDay, DayBucket;
      forall k | k in rows && k.chain == e.chain && k.day == e.Day() && k.pool == pool
        ensures k == PoolDayKey(e.chain, pool, e.Day()) {}
    }

    method UpsertAggregatorDailySnapshot(e: Swap, existing: Option<AggDay>, existingMarker: Option<AggMarker>,
        became: bool, actor: bool, aggregatorKeys: seq<string>, firstTouch: bool)
      requires existing == Lookup(aggDays, AggDayOf(e))
      modifies this`aggDays
      ensures aggDays == PutAggDay(old(aggDays), e,
        if became then AggCorrections(aggMarkers, e, aggregatorKeys, existingMarker) else map[], actor, firstTouch)
    {
      hide PutAggDay, NextAggDay, CorrectAggDays, AggCorrections, Subtract, Fees;
      var corrections: map<string, AggCorrection> := map[];
      AggDayPut(aggDays, e, existing, if became then AggCorrections(aggMarkers, e, aggregatorKeys, existingMarker) else map[], actor, firstTouch);
      if became { corrections := CollectAggregatorPrimaryCorrections(e, aggregatorKeys, existingMarker); }
      NoAggDaysCorrected(aggDays, e);
      assert aggDays == CorrectAggDays(old(aggDays), e, corrections);
      var prev := OrElse(existing, EMPTY_AGG_DAY);
      var correction := OrElse(Lookup(corrections, e.aggregator), NO_AGG_CORRECTION);
      aggDays := aggDays[AggDayOf(e) := AggDay(
        e.txTo,
        Subtract(prev.swapCount, correction.swapCount) + (if actor then 0 else 1),
        prev.swapCountAll + 1,
        Subtract(prev.uniqueTraders, correction.uniqueTraders) + (if !actor && firstTouch then 1 else 0),
        prev.uniqueTradersAll + (if firstTouch then 1 else 0),
        Subtract(prev.volume, correction.volume) + (if actor then 0 else e.volume),
        prev.volumeAll + e.volume,
        Subtract(prev.fees, correction.fees) + (if actor then 0 else Fees(e)),
        prev.feesAll + Fees(e))];
    }

    method CollectAggregatorPrimaryCorrections(e: Swap, aggregatorKeys: seq<string>, current: Option<AggMarker>)
      returns (corrections: map<string, AggCorrection>)
      modifies this`aggDays
      ensures corrections == AggCorrections(aggMarkers, e, aggregatorKeys, current)
      ensures aggDays == CorrectAggDays(old(aggDays), e, corrections)
    {
      hide AggCorrections, CorrectAggDays, AggDaysCorrectedFor, Elements;
      corrections := map[];
      var touched: seq<string> := [];
      GatherNoAggregators(aggMarkers, e, current);
      for i := 0 to |aggregatorKeys|
        invariant aggDays == old(aggDays)
        invariant corrections == AggCorrections(aggMarkers, e, aggregatorKeys[..i], current)
        invariant Elements(touched) == corrections.Keys
      {
        var marker := if aggregatorKeys[i] == e.aggregator then current
                      else Lookup(aggMarkers, AggTraderKey(e.chain, aggregatorKeys[i], e.caller, e.Day()));
        assert aggregatorKeys[..i + 1] == aggregatorKeys[..i] + [aggregatorKeys[i]];
        GatherAggregator(aggMarkers, e, aggregatorKeys[..i], aggregatorKeys[i], current);
        DistinctAppend(touched, aggregatorKeys[i]);
        if marker.Some? && !marker.value.actor {
          if aggregatorKeys[i] !in corrections { touched := touched + [aggregatorKeys[i]]; }
          corrections := corrections[aggregatorKeys[i] :=
            AggCorrection(marker.value.swapCount, 1, marker.value.volume, marker.value.fees)];
        }
      }
      assert aggregatorKeys[..|aggregatorKeys|] == aggregatorKeys;
      var read := aggDays;
      AggDaysCorrectedNone(read, e, corrections, touched[..0]);
      for i := 0 to |touched|
        invariant aggDays == AggDaysCorrectedFor(read, e, corrections, Elements(touched[..i]))
      {
        var aggregator := touched[i];
        InElements(aggregator, touched);
        var key := AggDayKey(e.chain, aggregator, e.Day());
        assert touched[..i + 1] == touched[..i] + [aggregator];
        DistinctAppend(touched[..i], aggregator);
        if aggregator != e.aggregator && key in read {
          aggDays := aggDays[key := CorrectedAggDay(read[key], corrections[aggregator])];
        }
        AggDaysCorrectedStep(read, e, corrections, Elements(touched[..i]), aggregator);
      }
      assert touched[..|touched|] == touched;
      AggDaysCorrectedAll(read, e, corrections, Elements(touched));
    }

    static lemma GatherNoAggregators(markers: map<AggTraderKey, AggMarker>, e: Swap, current: Option<AggMarker>)
      ensures forall none: seq<string> :: none == [] ==> AggCorrections(markers, e, none, current) == map[] && Elements(none) == {}
    {
    }

    static lemma GatherAggregator(markers: map<AggTraderKey, AggMarker>, e: Swap, done: seq<string>, aggregator: string, current: Option<AggMarker>)
      ensures
        var prior, sofar := PriorOnAgg(markers, e, aggregator, current), AggCorrections(markers, e, done, current);
        AggCorrections(markers, e, done + [aggregator], current) ==
          if prior.Some? && !prior.value.actor
          then sofar[aggregator := AggCorrection(prior.value.swapCount, 1, prior.value.volume, prior.value.fees)] else sofar
    {
      hide PriorOnAgg;
    }

    static lemma AggDaysCorrectedNone(rows: map<AggDayKey, AggDay>, e: Swap, corrections: map<string, AggCorrection>, none: seq<string>)
      requires none == []
      ensures AggDaysCorrectedFor(rows, e, corrections, Elements(none)) == rows
    {
    }

    static lemma AggDaysCorrectedAll(rows: map<AggDayKey, AggDay>, e: Swap, corrections: map<string, AggCorrection>, done: set<string>)
      requires done == corrections.Keys
      ensures AggDaysCorrectedFor(rows, e, corrections, done) == CorrectAggDays(rows, e, corrections)
    {
    }

    static ghost function AggDaysCorrectedFor(rows: map<AggDayKey, AggDay>, e: Swap, corrections: map<string, AggCorrection>, done: set<string>): map<AggDayKey, AggDay> {
      map k | k in rows ::
        if k.chain == e.chain && k.day == e.Day() && k.aggregator != e.aggregator && k.aggregator in corrections && k.aggregator in done
        then CorrectedAggDay(rows[k], corrections[k.aggregator]) else rows[k]
    }

    static lemma AggDaysCorrectedStep(rows: map<AggDayKey, AggDay>, e: Swap, corrections: map<string, AggCorrection>, done: set<string>, aggregator: string)
      requires aggregator in corrections
      ensures
        var key := AggDayKey(e.chain, aggregator, e.Day());
        AggDaysCorrectedFor(rows, e, corrections, done + {aggregator}) ==
          if aggregator != e.aggregator && key in rows
          then AggDaysCorrectedFor(rows, e, corrections, done)[key := CorrectedAggDay(rows[key], corrections[aggregator])]
          else AggDaysCorrectedFor(rows, e, corrections, done)
    {
      hide CorrectedAggDay, DayBucket;
      forall k | k in rows && k.chain == e.chain && k.day == e.Day() && k.aggregator == aggregator
        ensures k == AggDayKey(e.chain, aggregator, e.Day()) {}
    }

    // -------------------------------------------------------------- one swap

    /** The daily rollups of an accepted swap; the lifetime rollup is left to the caller. */
    method UpsertDailyRollups(e: Swap)
      modifies this`poolMarkers, this`aggMarkers, this`traderDays, this`traderPoolDays, this`poolDays, this`aggDays
      ensures Now() == DailyTablesAfter(old(Now()), e)
    {
      hide NextTraderDay, NextTraderPoolDay, NextAggMarker, PutPoolDay, PutAggDay, PoolCorrections, AggCorrections,
        AppendUnique, DayBucket, ActorAfter, BecameActor, PoolCorrectionsOf, AggCorrectionsOf, DailyTablesAfter;
      var traderDay := Lookup(traderDays, TraderDayOf(e));
      var traderPoolDay := Lookup(traderPoolDays, TraderPoolOf(e));
      var poolDay := Lookup(poolDays, PoolDayOf(e));
      var aggDay := Lookup(aggDays, AggDayOf(e));
      var aggMarker := Lookup(aggMarkers, AggTraderOf(e));
      var traderPoolFirstTouch := TraderPoolOf(e) !in poolMarkers;
      if traderPoolFirstTouch { poolMarkers := poolMarkers + {TraderPoolOf(e)}; }
      var aggTraderFirstTouch := aggMarker.None?;
      var became, actor, aggregatorKeys, poolIds := UpsertTraderDailySnapshot(e, traderDay, traderPoolFirstTouch);
      traderPoolDays := traderPoolDays[TraderPoolOf(e) := NextTraderPoolDay(traderPoolDay, e)];
      CorrectionsIgnoreOwnRow(old(traderPoolDays), e, poolIds, traderPoolDay);
      UpsertPoolDailyVolumeSnapshot(e, poolDay, traderPoolDay, became, actor, poolIds);
      UpsertAggregatorDailySnapshot(e, aggDay, aggMarker, became, actor, aggregatorKeys, aggTraderFirstTouch);
      aggMarkers := aggMarkers[AggTraderOf(e) := NextAggMarker(aggMarker, e, actor)];
      CorrectionsAre(old(Now()), e);
      DailyTablesAre(old(Now()), e);
    }

    static lemma DailyTablesAre(t: Tables, e: Swap)
      ensures
        var traderDay, after := Lookup(t.traderDays, TraderDayOf(e)), DailyTablesAfter(t, e);
        && after.poolMarkers == t.poolMarkers + {TraderPoolOf(e)} && after.allTime == t.allTime
        && after.aggMarkers == t.aggMarkers[AggTraderOf(e) := NextAggMarker(Lookup(t.aggMarkers, AggTraderOf(e)), e, ActorAfter(traderDay, e))]
        && after.traderDays == t.traderDays[TraderDayOf(e) := NextTraderDay(traderDay, e, TraderPoolOf(e) !in t.poolMarkers)]
        && after.traderPoolDays == t.traderPoolDays[TraderPoolOf(e) := NextTraderPoolDay(Lookup(t.traderPoolDays, TraderPoolOf(e)), e)]
        && after.poolDays == PutPoolDay(t.poolDays, e, PoolCorrectionsOf(traderDay, t.traderPoolDays, e), ActorAfter(traderDay, e))
        && after.aggDays == PutAggDay(t.aggDays, e, AggCorrectionsOf(traderDay, t.aggMarkers, e), ActorAfter(traderDay, e), AggTraderOf(e) !in t.aggMarkers)
    {
      hide NextTraderDay, NextTraderPoolDay, NextAggMarker, PutPoolDay, PutAggDay, ActorAfter, PoolCorrectionsOf, AggCorrectionsOf, DayBucket;
    }

    method ApplyVolumeSnapshots(e: Swap)
      requires LowerCaseTables(Now()) && LowerCase(e.caller)
      modifies this
      ensures View() == After(old(View()), PoolSwap(e))
      ensures LowerCaseTables(Now())
    {
      hide DailyTablesAfter, NextAllTime, Heartbeat, LowerCase, LowerCaseTables;
      if e.caller == "" {
        MaybeHeartbeatFlushV3(e.chain, e.timestamp, e.block);
        HeartbeatKeepsTables(old(View()), e.chain, e.timestamp, e.block);
        return;
      }
      if e.volume == 0 {
        MaybeHeartbeatFlushV3(e.chain, e.timestamp, e.block);
        HeartbeatKeepsTables(old(View()), e.chain, e.timestamp, e.block);
        return;
      }
      var allTimeRow := Lookup(allTime, TraderOf(e));
      LowerCaseKept(Now(), e);
      UpsertDailyRollups(e);
      ghost var s := View();
      assert s == old(View()).(tables := DailyTablesAfter(old(Now()), e));
      MaybeHeartbeatFlushV3(e.chain, e.timestamp, e.block);
      HeartbeatKeepsTables(s, e.chain, e.timestamp, e.block);
      allTime := allTime[TraderOf(e) := NextAllTime(allTimeRow, e)];
      assert Now() == TablesAfter(old(Now()), e) by { LifetimeUntouched(old(Now()), e); }
    }

    static lemma LifetimeUntouched(t: Tables, e: Swap)
      ensures DailyTablesAfter(t, e).allTime == t.allTime
    {
    }

    static lemma LowerCaseKept(t: Tables, e: Swap)
      requires LowerCaseTables(t) && LowerCase(e.caller) && Accepted(e)
      ensures LowerCaseTables(DailyTablesAfter(t, e)) && LowerCaseTables(TablesAfter(t, e))
    {
      hide LowerCase, PutAggDay, PutPoolDay, PutAggMarker, PutTraderPoolDay, NextTraderDay, NextAllTime, DayBucket;
    }

    static lemma HeartbeatKeepsTables(s: Store, chain: int, timestamp: nat, block: int)
      ensures Heartbeat(s, chain, timestamp, block).tables == s.tables
    {
    }

    static lemma CorrectionsAre(t: Tables, e: Swap)
      ensures
        var traderDay := Lookup(t.traderDays, TraderDayOf(e));
        var prev := OrElse(traderDay, EMPTY_TRADER_DAY);
        && PoolCorrectionsOf(traderDay, t.traderPoolDays, e) ==
             (if BecameActor(traderDay, e) then PoolCorrections(t.traderPoolDays, e, AppendUnique(prev.poolIds, e.pool), Lookup(t.traderPoolDays, TraderPoolOf(e))) else map[])
        && AggCorrectionsOf(traderDay, t.aggMarkers, e) ==
             (if BecameActor(traderDay, e) then AggCorrections(t.aggMarkers, e, AppendUnique(prev.aggregatorKeys, e.aggregator), Lookup(t.aggMarkers, AggTraderOf(e))) else map[])
    {
      hide PoolCorrections, AggCorrections, AppendUnique;
    }
  }
}
