/** One swap keeps every rollup table equal to its recomputation from the whole history. */
module VolumeRollupProofs {
  import opened Ordering
  import opened Outcomes
  import opened Sums
  import opened VolumeHistory
  import opened VolumeRollups

  // ---------------------------------------------------------------- one more event

  /** How one accepted event moves the sum of a group. */
  lemma GroupAppend<K>(h: seq<Swap>, e: Swap, key: Swap -> K, k: K, value: Swap -> int)
    requires Accepted(e)
    ensures SumOf(h + [e], InGroup(key, k), value) ==
      SumOf(h, InGroup(key, k), value) + (if key(e) == k then value(e) else 0)
    ensures k !in KeysOf(h, key) ==> SumOf(h, InGroup(key, k), value) == 0
  {
    SumOfAppend(h, e, InGroup(key, k), value);
    if k !in KeysOf(h, key) { SumOfNone(h, InGroup(key, k), value); }
  }

  lemma FreshPrimary<K>(h: seq<Swap>, key: Swap -> K, k: K, flagged: set<TraderDayKey>, value: Swap -> int)
    requires k !in KeysOf(h, key)
    ensures SumOf(h, InGroupBut(key, k, flagged), value) == 0
  {
    SumOfNone(h, InGroupBut(key, k, flagged), value);
  }

  lemma LastIsNew<K>(h: seq<Swap>, e: Swap, key: Swap -> K)
    requires Accepted(e)
    ensures IsLastOf(h + [e], key, key(e), e)
  {
    assert (h + [e])[|h|] == e;
  }

  lemma LastStays<K>(h: seq<Swap>, e: Swap, key: Swap -> K, k: K, last: Swap)
    requires IsLastOf(h, key, k, last) && !InGroup(key, k)(e)
    ensures IsLastOf(h + [e], key, k, last)
  {
    var i :| 0 <= i < |h| && h[i] == last && InGroup(key, k)(last) && forall j :: i < j < |h| ==> !InGroup(key, k)(h[j]);
    assert (h + [e])[i] == last;
    forall j | i < j < |h + [e]| ensures !InGroup(key, k)((h + [e])[j]) {
      if j < |h| { assert (h + [e])[j] == h[j]; }
    }
  }

  lemma AppendUniqueLists(list: seq<string>, members: set<string>, value: string)
    requires Lists(list, members)
    ensures Lists(AppendUnique(list, value), members + {value})
  {
    if value in list {
      assert members + {value} == members;
    } else {
      SortOfDistinct(list + [value]);
      assert Elements(list + [value]) == members + {value};
    }
  }

  lemma PoolsOnAppend(h: seq<Swap>, e: Swap, k: TraderDayKey)
    ensures PoolsOn(h + [e], k) == PoolsOn(h, k) + (if Accepted(e) && TraderDayOf(e) == k then {e.pool} else {})
  {
    var more := PoolsOn(h, k) + (if Accepted(e) && TraderDayOf(e) == k then {e.pool} else {});
    forall p ensures p in PoolsOn(h + [e], k) <==> p in more {
      if p in PoolsOn(h, k) {
        var x :| x in h && Accepted(x) && TraderDayOf(x) == k && x.pool == p;
        assert x in h + [e];
      }
      assert e in h + [e];
    }
  }

  lemma AggregatorsOnAppend(h: seq<Swap>, e: Swap, k: TraderDayKey)
    ensures AggregatorsOn(h + [e], k) ==
      AggregatorsOn(h, k) + (if Accepted(e) && TraderDayOf(e) == k then {e.aggregator} else {})
  {
    var more := AggregatorsOn(h, k) + (if Accepted(e) && TraderDayOf(e) == k then {e.aggregator} else {});
    forall p ensures p in AggregatorsOn(h + [e], k) <==> p in more {
      if p in AggregatorsOn(h, k) {
        var x :| x in h && Accepted(x) && TraderDayOf(x) == k && x.aggregator == p;
        assert x in h + [e];
      }
      assert e in h + [e];
    }
  }

  // ---------------------------------------------------------------- trader tables

  lemma TraderDayRowStays(row: TraderDay, k: TraderDayKey, h: seq<Swap>, e: Swap)
    requires Accepted(e) && TraderDayOf(e) != k && TraderDayRow(row, k, h)
    ensures TraderDayRow(row, k, h + [e])
  {
    hide Flagged, PoolsOn, AggregatorsOn, SumOf, IsLastOf, KeysOf;
    GroupAppend(h, e, TraderDayOf, k, One);
    GroupAppend(h, e, TraderDayOf, k, Volume);
    GroupAppend(h, e, TraderDayOf, k, Fees);
    FlaggedAppend(h, e);
    PoolsOnAppend(h, e, k);
    AggregatorsOnAppend(h, e, k);
    assert PoolsOn(h + [e], k) == PoolsOn(h, k) && AggregatorsOn(h + [e], k) == AggregatorsOn(h, k);
    var last :| IsLastOf(h, TraderDayOf, k, last) && row.lastSeen == last.timestamp;
    LastStays(h, e, TraderDayOf, k, last);
  }

  /** What the fresh trader-day starts from. */
  lemma FreshTraderDay(k: TraderDayKey, h: seq<Swap>)
    requires k !in KeysOf(h, TraderDayOf)
    ensures PoolsOn(h, k) == {} && AggregatorsOn(h, k) == {} && k !in Flagged(h)
    ensures Lists([], PoolsOn(h, k)) && Lists([], AggregatorsOn(h, k))
  {
  }

  lemma TraderDayLists(prev: TraderDay, k: TraderDayKey, h: seq<Swap>, e: Swap, firstTouch: bool)
    requires Accepted(e) && TraderDayOf(e) == k
    requires Lists(prev.poolIds, PoolsOn(h, k)) && prev.uniquePools == |PoolsOn(h, k)|
    requires Lists(prev.aggregatorKeys, AggregatorsOn(h, k))
    requires firstTouch <==> TraderPoolOf(e) !in KeysOf(h, TraderPoolOf)
    ensures
      var row := NextTraderDay(Some(prev), e, firstTouch);
      && Lists(row.poolIds, PoolsOn(h + [e], k)) && row.uniquePools == |PoolsOn(h + [e], k)|
      && Lists(row.aggregatorKeys, AggregatorsOn(h + [e], k))
  {
    PoolsOnAppend(h, e, k);
    AggregatorsOnAppend(h, e, k);
    AppendUniqueLists(prev.poolIds, PoolsOn(h, k), e.pool);
    AppendUniqueLists(prev.aggregatorKeys, AggregatorsOn(h, k), e.aggregator);
    assert e.pool in PoolsOn(h, k) <==> TraderPoolOf(e) in KeysOf(h, TraderPoolOf) by {
      if e.pool in PoolsOn(h, k) {
        var x :| x in h && Accepted(x) && TraderDayOf(x) == k && x.pool == e.pool;
        assert TraderPoolOf(x) == TraderPoolOf(e);
      }
      if TraderPoolOf(e) in KeysOf(h, TraderPoolOf) {
        var x :| x in h && Accepted(x) && TraderPoolOf(x) == TraderPoolOf(e);
        assert TraderDayOf(x) == k && x.pool == e.pool;
      }
    }
  }

  lemma TraderDayRowMoves(existing: Option<TraderDay>, k: TraderDayKey, h: seq<Swap>, e: Swap, firstTouch: bool)
    requires Accepted(e) && TraderDayOf(e) == k
    requires existing.Some? <==> k in KeysOf(h, TraderDayOf)
    requires existing.Some? ==> TraderDayRow(existing.value, k, h)
    requires firstTouch <==> TraderPoolOf(e) !in KeysOf(h, TraderPoolOf)
    ensures TraderDayRow(NextTraderDay(existing, e, firstTouch), k, h + [e])
  {
    hide Flagged, KeysOf, PoolsOn, AggregatorsOn, SumOf, InGroup, Lists, AppendUnique, IsLastOf;
    GroupAppend(h, e, TraderDayOf, k, One);
    GroupAppend(h, e, TraderDayOf, k, Volume);
    GroupAppend(h, e, TraderDayOf, k, Fees);
    FlaggedAppend(h, e);
    LastIsNew(h, e, TraderDayOf);
    if existing.None? { FreshTraderDay(k, h); }
    TraderDayLists(OrElse(existing, EMPTY_TRADER_DAY), k, h, e, firstTouch);
  }

  lemma TraderDaysStep(rows: map<TraderDayKey, TraderDay>, markers: set<TraderPoolKey>, h: seq<Swap>, e: Swap)
    requires Accepted(e) && TraderDaysAgree(rows, h) && markers == KeysOf(h, TraderPoolOf)
    ensures TraderDaysAgree(PutTraderDay(rows, markers, e), h + [e])
  {
    hide TraderDayRow, KeysOf, NextTraderDay;
    KeysOfAppend(h, e, TraderDayOf);
    TraderDayRowMoves(Lookup(rows, TraderDayOf(e)), TraderDayOf(e), h, e, TraderPoolOf(e) !in markers);
    forall k | k in rows && k != TraderDayOf(e) ensures TraderDayRow(rows[k], k, h + [e]) {
      TraderDayRowStays(rows[k], k, h, e);
    }
  }

  lemma ActorEverAppend(h: seq<Swap>, e: Swap, k: TraderKey)
    requires Accepted(e)
    ensures ActorEver(h + [e], k) == (ActorEver(h, k) || (TraderOf(e) == k && e.actor))
  {
    if ActorEver(h, k) {
      var x :| x in h && Accepted(x) && TraderOf(x) == k && x.actor;
      assert x in h + [e];
    }
    assert e in h + [e];
  }

  lemma AllTimeStep(rows: map<TraderKey, TraderAllTime>, h: seq<Swap>, e: Swap)
    requires Accepted(e) && AllTimeAgrees(rows, h)
    ensures AllTimeAgrees(PutAllTime(rows, e), h + [e])
  {
    hide SumOf, IsLastOf, AllTimeRow, NextAllTime, KeysOf;
    var rows' := PutAllTime(rows, e);
    KeysOfAppend(h, e, TraderOf);
    forall k | k in rows' ensures AllTimeRow(rows'[k], k, h + [e]) {
      if k == TraderOf(e) { AllTimeRowNew(Lookup(rows, k), h, e); } else { AllTimeRowStays(rows[k], k, h, e); }
    }
  }

  lemma AllTimeRowNew(existing: Option<TraderAllTime>, h: seq<Swap>, e: Swap)
    requires Accepted(e) && (existing.Some? <==> TraderOf(e) in KeysOf(h, TraderOf)) && (existing.Some? ==> AllTimeRow(existing.value, TraderOf(e), h))
    ensures AllTimeRow(NextAllTime(existing, e), TraderOf(e), h + [e])
  {
    hide SumOf, IsLastOf;
    GroupAppend(h, e, TraderOf, TraderOf(e), One);
    GroupAppend(h, e, TraderOf, TraderOf(e), Volume);
    ActorEverAppend(h, e, TraderOf(e));
    LastIsNew(h, e, TraderOf);
  }

  lemma AllTimeRowStays(row: TraderAllTime, k: TraderKey, h: seq<Swap>, e: Swap)
    requires Accepted(e) && k != TraderOf(e) && AllTimeRow(row, k, h)
    ensures AllTimeRow(row, k, h + [e])
  {
    hide SumOf, IsLastOf;
    GroupAppend(h, e, TraderOf, k, One);
    GroupAppend(h, e, TraderOf, k, Volume);
    ActorEverAppend(h, e, k);
    var last :| IsLastOf(h, TraderOf, k, last) && row.updatedAt == last.timestamp;
    LastStays(h, e, TraderOf, k, last);
  }

  lemma TraderPoolDaysStep(rows: map<TraderPoolKey, TraderPoolDay>, h: seq<Swap>, e: Swap)
    requires Accepted(e) && TraderPoolDaysAgree(rows, h)
    ensures TraderPoolDaysAgree(PutTraderPoolDay(rows, e), h + [e])
  {
    hide SumOf, KeysOf;
    var rows' := PutTraderPoolDay(rows, e);
    KeysOfAppend(h, e, TraderPoolOf);
    forall k | k in rows' ensures TraderPoolDayRow(rows'[k], k, h + [e]) {
      GroupAppend(h, e, TraderPoolOf, k, One);
      GroupAppend(h, e, TraderPoolOf, k, Volume);
      GroupAppend(h, e, TraderPoolOf, k, Fees);
      GroupAppend(h, e, TraderPoolOf, k, Inflow0);
      GroupAppend(h, e, TraderPoolOf, k, Outflow0);
      GroupAppend(h, e, TraderPoolOf, k, Inflow1);
      GroupAppend(h, e, TraderPoolOf, k, Outflow1);
    }
  }

  lemma FlaggedByLastAppend(h: seq<Swap>, e: Swap, k: AggTraderKey)
    ensures FlaggedByLast(h + [e], k) <==>
      FlaggedByLast(h, k) || (InGroup(AggTraderOf, k)(e) && TraderDayKey(k.chain, k.trader, k.day) in Flagged(h + [e]))
  {
    hide Flagged, InGroup;
    var all := h + [e];
    assert all[..|all|] == all && all[|h|] == e;
    forall i | 0 <= i < |h| ensures all[i] == h[i] && all[..i + 1] == h[..i + 1] {}
    if FlaggedByLast(all, k) {
      var i :| 0 <= i < |all| && InGroup(AggTraderOf, k)(all[i]) && TraderDayKey(k.chain, k.trader, k.day) in Flagged(all[..i + 1]);
      assert i < |h| ==> InGroup(AggTraderOf, k)(h[i]);
    }
    if FlaggedByLast(h, k) {
      var i :| 0 <= i < |h| && InGroup(AggTraderOf, k)(h[i]) && TraderDayKey(k.chain, k.trader, k.day) in Flagged(h[..i + 1]);
      assert InGroup(AggTraderOf, k)(all[i]);
    }
    if InGroup(AggTraderOf, k)(e) && TraderDayKey(k.chain, k.trader, k.day) in Flagged(all) {
      assert InGroup(AggTraderOf, k)(all[|h|]) && all[..|h| + 1] == all;
    }
  }

  lemma NotYetFlagged(h: seq<Swap>, k: AggTraderKey)
    requires k !in KeysOf(h, AggTraderOf)
    ensures !FlaggedByLast(h, k)
  {
  }

  lemma AggMarkersStep(rows: map<AggTraderKey, AggMarker>, h: seq<Swap>, e: Swap, actor: bool)
    requires Accepted(e) && AggMarkersAgree(rows, h)
    requires actor == (TraderDayOf(e) in Flagged(h + [e]))
    ensures AggMarkersAgree(PutAggMarker(rows, e, actor), h + [e])
  {
    hide SumOf, Flagged, KeysOf, FlaggedByLast;
    var rows' := PutAggMarker(rows, e, actor);
    KeysOfAppend(h, e, AggTraderOf);
    FlaggedAppend(h, e);
    forall k | k in rows' ensures AggMarkerRow(rows'[k], k, h + [e]) {
      GroupAppend(h, e, AggTraderOf, k, One);
      GroupAppend(h, e, AggTraderOf, k, Volume);
      GroupAppend(h, e, AggTraderOf, k, Fees);
      FlaggedByLastAppend(h, e, k);
      if k !in rows { NotYetFlagged(h, k); }
    }
  }

  // ---------------------------------------------------------------- corrections

  /** The swap flags its trader-day, which was not flagged before. */
  ghost predicate Flags(h: seq<Swap>, e: Swap) {
    TraderDayOf(e) in Flagged(h + [e]) - Flagged(h)
  }

  /** The trader's own earlier events in group `k` today, if the swap takes them out. */
  ghost function TakenOut<K>(h: seq<Swap>, e: Swap, key: Swap -> K, k: K, value: Swap -> int): int {
    if Flags(h, e) then SumOf(h, InGroupBy(key, k, TraderDayOf(e)), value) else 0
  }

  /** What the table's flag says about the trader-day is what the history says. */
  lemma FlagMeaning(traderDay: Option<TraderDay>, h: seq<Swap>, e: Swap)
    requires Accepted(e)
    requires traderDay.Some? <==> TraderDayOf(e) in KeysOf(h, TraderDayOf)
    requires traderDay.Some? ==> traderDay.value.actor == (TraderDayOf(e) in Flagged(h))
    ensures ActorAfter(traderDay, e) == (TraderDayOf(e) in Flagged(h + [e]))
    ensures BecameActor(traderDay, e) <==> Flags(h, e) && TraderDayOf(e) in KeysOf(h, TraderDayOf)
  {
    FlaggedAppend(h, e);
    if TraderDayOf(e) in Flagged(h) { assert TraderDayOf(e) in KeysOf(h, TraderDayOf); }
  }

  /** Nothing is taken out for a trader who was not seen earlier in the day. */
  lemma NothingTakenOut<K>(h: seq<Swap>, e: Swap, key: Swap -> K, k: K, value: Swap -> int)
    requires TraderDayOf(e) !in KeysOf(h, TraderDayOf)
    ensures TakenOut(h, e, key, k, value) == 0
  {
    SumOfNone(h, InGroupBy(key, k, TraderDayOf(e)), value);
  }

  /** What is taken out never exceeds what is there, so the clamps do not bite. */
  lemma TakenOutIsThere<K>(h: seq<Swap>, e: Swap, key: Swap -> K, k: K, value: Swap -> int)
    requires forall x :: value(x) >= 0
    ensures 0 <= TakenOut(h, e, key, k, value) <= SumOf(h, InGroupBut(key, k, Flagged(h)), value)
  {
    var td := TraderDayOf(e);
    SumOfNatural(h, InGroupBut(key, k, Flagged(h)), value);
    if Flags(h, e) {
      SumOfSplit(h, InGroupBut(key, k, Flagged(h)), InGroupBut(key, k, Flagged(h) + {td}), InGroupBy(key, k, td), value);
      SumOfNatural(h, InGroupBut(key, k, Flagged(h) + {td}), value);
      SumOfNatural(h, InGroupBy(key, k, td), value);
    }
  }

  /** The primary sum of a group after one more event. */
  lemma PrimaryMoves<K>(h: seq<Swap>, e: Swap, key: Swap -> K, k: K, value: Swap -> int)
    requires Accepted(e) && forall x :: value(x) >= 0
    ensures
      var before := SumOf(h, InGroupBut(key, k, Flagged(h)), value);
      && 0 <= TakenOut(h, e, key, k, value) <= before
      && SumOf(h + [e], InGroupBut(key, k, Flagged(h + [e])), value) ==
           before - TakenOut(h, e, key, k, value)
           + (if key(e) == k && TraderDayOf(e) !in Flagged(h + [e]) then value(e) else 0)
      && (k !in KeysOf(h, key) ==> before == 0)
  {
    PrimaryStep(h, e, key, k, value);
    TakenOutIsThere(h, e, key, k, value);
    if k !in KeysOf(h, key) { FreshPrimary(h, key, k, Flagged(h), value); }
  }

  function PoolCorrectionAt(corrections: map<string, PoolCorrection>, e: Swap, k: PoolDayKey): PoolCorrection {
    if k.chain == e.chain && k.day == e.Day() then OrElse(Lookup(corrections, k.pool), NO_POOL_CORRECTION)
    else NO_POOL_CORRECTION
  }

  function AggCorrectionAt(corrections: map<string, AggCorrection>, e: Swap, k: AggDayKey): AggCorrection {
    if k.chain == e.chain && k.day == e.Day() then OrElse(Lookup(corrections, k.aggregator), NO_AGG_CORRECTION)
    else NO_AGG_CORRECTION
  }

  ghost predicate ExactPoolCorrection(c: PoolCorrection, h: seq<Swap>, e: Swap, k: PoolDayKey) {
    && c.swapCount == TakenOut(h, e, PoolDayOf, k, One)
    && c.volume == TakenOut(h, e, PoolDayOf, k, Volume)
  }

  ghost predicate ExactAggCorrection(c: AggCorrection, h: seq<Swap>, e: Swap, k: AggDayKey) {
    && c.swapCount == TakenOut(h, e, AggDayOf, k, One)
    && c.volume == TakenOut(h, e, AggDayOf, k, Volume)
    && c.fees == TakenOut(h, e, AggDayOf, k, Fees)
    && c.uniqueTraders == |TradersBut(h, k, Flagged(h))| - |TradersBut(h, k, Flagged(h + [e]))|
  }

  /** On its own day, the group of a trader and a pool-day is a trader-pool-day. */
  lemma OwnPoolEvents(h: seq<Swap>, e: Swap, k: PoolDayKey, value: Swap -> int)
    ensures
      SumOf(h, InGroupBy(PoolDayOf, k, TraderDayOf(e)), value) ==
        if k.chain == e.chain && k.day == e.Day()
        then SumOf(h, InGroup(TraderPoolOf, TraderPoolKey(e.chain, e.caller, k.pool, e.Day())), value) else 0
  {
    var td, tp := TraderDayOf(e), TraderPoolKey(e.chain, e.caller, k.pool, e.Day());
    assert k == PoolDayKey(k.chain, k.pool, k.day);
    if k.chain == e.chain && k.day == e.Day() {
      forall x | x in h ensures InGroupBy(PoolDayOf, k, td)(x) == InGroup(TraderPoolOf, tp)(x) {
        assert TraderPoolOf(x) == tp <==> PoolDayOf(x) == k && TraderDayOf(x) == td;
      }
      SumOfSame(h, InGroupBy(PoolDayOf, k, td), InGroup(TraderPoolOf, tp), value);
    } else {
      forall x | x in h ensures !InGroupBy(PoolDayOf, k, td)(x) {
        assert !(PoolDayOf(x) == k && TraderDayOf(x) == td);
      }
      SumOfNone(h, InGroupBy(PoolDayOf, k, td), value);
    }
  }

  lemma OwnAggEvents(h: seq<Swap>, e: Swap, k: AggDayKey, value: Swap -> int)
    ensures
      SumOf(h, InGroupBy(AggDayOf, k, TraderDayOf(e)), value) ==
        if k.chain == e.chain && k.day == e.Day()
        then SumOf(h, InGroup(AggTraderOf, AggTraderKey(e.chain, k.aggregator, e.caller, e.Day())), value) else 0
  {
    var td, at := TraderDayOf(e), AggTraderKey(e.chain, k.aggregator, e.caller, e.Day());
    assert k == AggDayKey(k.chain, k.aggregator, k.day);
    if k.chain == e.chain && k.day == e.Day() {
      forall x | x in h ensures InGroupBy(AggDayOf, k, td)(x) == InGroup(AggTraderOf, at)(x) {
        assert AggTraderOf(x) == at <==> AggDayOf(x) == k && TraderDayOf(x) == td;
      }
      SumOfSame(h, InGroupBy(AggDayOf, k, td), InGroup(AggTraderOf, at), value);
    } else {
      forall x | x in h ensures !InGroupBy(AggDayOf, k, td)(x) {
        assert !(AggDayOf(x) == k && TraderDayOf(x) == td);
      }
      SumOfNone(h, InGroupBy(AggDayOf, k, td), value);
    }
  }

  /** A trader-pool row exists exactly for the pools on the trader's list of the day. */
  lemma PoolListed(h: seq<Swap>, e: Swap, pool: string)
    ensures TraderPoolKey(e.chain, e.caller, pool, e.Day()) in KeysOf(h, TraderPoolOf) <==> pool in PoolsOn(h, TraderDayOf(e))
  {
    var tp := TraderPoolKey(e.chain, e.caller, pool, e.Day());
    if tp in KeysOf(h, TraderPoolOf) {
      var x :| x in h && Accepted(x) && TraderPoolOf(x) == tp;
      assert TraderDayOf(x) == TraderDayOf(e) && x.pool == pool;
    }
    if pool in PoolsOn(h, TraderDayOf(e)) {
      var x :| x in h && Accepted(x) && TraderDayOf(x) == TraderDayOf(e) && x.pool == pool;
      assert TraderPoolOf(x) == tp;
    }
  }

  lemma AggregatorListed(h: seq<Swap>, e: Swap, aggregator: string)
    ensures AggTraderKey(e.chain, aggregator, e.caller, e.Day()) in KeysOf(h, AggTraderOf) <==>
      aggregator in AggregatorsOn(h, TraderDayOf(e))
    ensures forall k: AggDayKey :: k.chain == e.chain && k.day == e.Day() && k.aggregator == aggregator ==>
      (aggregator in AggregatorsOn(h, TraderDayOf(e)) <==> e.caller in TradersBut(h, k, {}))
  {
    var at, k := AggTraderKey(e.chain, aggregator, e.caller, e.Day()), AggDayKey(e.chain, aggregator, e.Day());
    if at in KeysOf(h, AggTraderOf) {
      var x :| x in h && Accepted(x) && AggTraderOf(x) == at;
      assert TraderDayOf(x) == TraderDayOf(e) && x.aggregator == aggregator;
    }
    if aggregator in AggregatorsOn(h, TraderDayOf(e)) {
      var x :| x in h && Accepted(x) && TraderDayOf(x) == TraderDayOf(e) && x.aggregator == aggregator;
      assert AggTraderOf(x) == at && AggDayOf(x) == k;
    }
    if e.caller in TradersBut(h, k, {}) {
      var x :| x in h && Accepted(x) && AggDayOf(x) == k && x.caller == e.caller;
      assert TraderDayOf(x) == TraderDayOf(e) && x.aggregator == aggregator;
    }
  }

  /** What the correction takes out of pool-day `k` is exactly what the trader put in today. */
  lemma PoolCorrectionIsExact(traderDay: Option<TraderDay>, rows: map<TraderPoolKey, TraderPoolDay>, h: seq<Swap>, e: Swap, k: PoolDayKey)
    requires Accepted(e) && TraderPoolDaysAgree(rows, h)
    requires traderDay.Some? <==> TraderDayOf(e) in KeysOf(h, TraderDayOf)
    requires traderDay.Some? ==> TraderDayRow(traderDay.value, TraderDayOf(e), h)
    ensures ExactPoolCorrection(PoolCorrectionAt(PoolCorrectionsOf(traderDay, rows, e), e, k), h, e, k)
  {
    hide Flagged, KeysOf, SumOf, InGroup, InGroupBy, PoolsOn, AppendUnique, Flags;
    FlagMeaning(traderDay, h, e);
    if !BecameActor(traderDay, e) {
      if TraderDayOf(e) !in KeysOf(h, TraderDayOf) {
        NothingTakenOut(h, e, PoolDayOf, k, One);
        NothingTakenOut(h, e, PoolDayOf, k, Volume);
      }
    } else {
      OwnPoolEvents(h, e, k, One);
      OwnPoolEvents(h, e, k, Volume);
      if k.chain == e.chain && k.day == e.Day() {
        var tp := TraderPoolKey(e.chain, e.caller, k.pool, e.Day());
        PoolListed(h, e, k.pool);
        AppendUniqueLists(traderDay.value.poolIds, PoolsOn(h, TraderDayOf(e)), e.pool);
        assert tp in rows ==> k.pool in AppendUnique(traderDay.value.poolIds, e.pool);
        if tp !in rows {
          GroupAppend(h, e, TraderPoolOf, tp, One);
          GroupAppend(h, e, TraderPoolOf, tp, Volume);
        } else {
          assert TraderPoolDayRow(rows[tp], tp, h);
        }
      }
    }
  }

  lemma AggSumsAreExact(traderDay: Option<TraderDay>, markers: map<AggTraderKey, AggMarker>, h: seq<Swap>, e: Swap, k: AggDayKey)
    requires Accepted(e) && AggMarkersAgree(markers, h) && BecameActor(traderDay, e) && Flags(h, e)
    requires TraderDayRow(traderDay.value, TraderDayOf(e), h)
    ensures
      var c := AggCorrectionAt(AggCorrectionsOf(traderDay, markers, e), e, k);
      && c.swapCount == SumOf(h, InGroupBy(AggDayOf, k, TraderDayOf(e)), One)
      && c.volume == SumOf(h, InGroupBy(AggDayOf, k, TraderDayOf(e)), Volume)
      && c.fees == SumOf(h, InGroupBy(AggDayOf, k, TraderDayOf(e)), Fees)
      && c.uniqueTraders ==
           if k.chain == e.chain && k.day == e.Day() && k.aggregator in AggregatorsOn(h, TraderDayOf(e)) then 1 else 0
  {
    hide Flagged, SumOf, InGroup, InGroupBy, AppendUnique, Flags;
    OwnAggEvents(h, e, k, One);
    OwnAggEvents(h, e, k, Volume);
    OwnAggEvents(h, e, k, Fees);
    if k.chain == e.chain && k.day == e.Day() {
      var at := AggTraderKey(e.chain, k.aggregator, e.caller, e.Day());
      AggregatorListed(h, e, k.aggregator);
      AppendUniqueLists(traderDay.value.aggregatorKeys, AggregatorsOn(h, TraderDayOf(e)), e.aggregator);
      assert at in markers ==> k.aggregator in AppendUnique(traderDay.value.aggregatorKeys, e.aggregator);
      if at !in markers {
        GroupAppend(h, e, AggTraderOf, at, One);
        GroupAppend(h, e, AggTraderOf, at, Volume);
        GroupAppend(h, e, AggTraderOf, at, Fees);
      } else {
        assert AggMarkerRow(markers[at], at, h);
      }
    }
  }

  /** On its own day, an unflagged trader counts among the unflagged traders of a group iff they traded in it. */
  lemma OwnTrader(h: seq<Swap>, e: Swap, k: AggDayKey, flagged: set<TraderDayKey>)
    requires k.chain == e.chain && k.day == e.Day() && TraderDayOf(e) !in flagged
    ensures e.caller in TradersBut(h, k, {}) <==> e.caller in TradersBut(h, k, flagged)
  {
    if e.caller in TradersBut(h, k, {}) {
      var x :| x in h && Accepted(x) && AggDayOf(x) == k && x.caller == e.caller;
      assert TraderDayOf(x) == TraderDayOf(e);
    }
  }

  lemma NoTradersYet(h: seq<Swap>, k: AggDayKey, flagged: set<TraderDayKey>)
    requires k !in KeysOf(h, AggDayOf)
    ensures TradersBut(h, k, flagged) == {}
  {
  }

  /** Flagging a trader-day takes its trader off the unflagged traders of its day's groups. */
  lemma TradersTakenOut(h: seq<Swap>, e: Swap, k: AggDayKey)
    requires Accepted(e) && Flags(h, e)
    ensures |TradersBut(h, k, Flagged(h))| - |TradersBut(h, k, Flagged(h + [e]))| ==
      if k.chain == e.chain && k.day == e.Day() && k.aggregator in AggregatorsOn(h, TraderDayOf(e)) then 1 else 0
  {
    var td := TraderDayOf(e);
    FlaggedAppend(h, e);
    TradersButFlag(h, k, Flagged(h), td);
    if k.chain == e.chain && k.day == e.Day() {
      AggregatorListed(h, e, k.aggregator);
      OwnTrader(h, e, k, Flagged(h));
    }
  }

  lemma AggCorrectionIsExact(traderDay: Option<TraderDay>, markers: map<AggTraderKey, AggMarker>, h: seq<Swap>, e: Swap, k: AggDayKey)
    requires Accepted(e) && AggMarkersAgree(markers, h)
    requires traderDay.Some? <==> TraderDayOf(e) in KeysOf(h, TraderDayOf)
    requires traderDay.Some? ==> TraderDayRow(traderDay.value, TraderDayOf(e), h)
    ensures ExactAggCorrection(AggCorrectionAt(AggCorrectionsOf(traderDay, markers, e), e, k), h, e, k)
  {
    FlagMeaning(traderDay, h, e);
    if BecameActor(traderDay, e) {
      AggSumsAreExact(traderDay, markers, h, e, k);
      TradersTakenOut(h, e, k);
    } else if Flags(h, e) {
      NothingTakenOut(h, e, AggDayOf, k, One);
      NothingTakenOut(h, e, AggDayOf, k, Volume);
      NothingTakenOut(h, e, AggDayOf, k, Fees);
      FreshTraderDay(TraderDayOf(e), h);
      TradersTakenOut(h, e, k);
    } else {
      FlaggedAppend(h, e);
      assert Flagged(h + [e]) == Flagged(h);
    }
  }

  // ---------------------------------------------------------------- pool-days

  lemma PoolDayRowMoves(existing: Option<PoolDay>, c: PoolCorrection, k: PoolDayKey, h: seq<Swap>, e: Swap, actor: bool)
    requires Accepted(e) && ExactPoolCorrection(c, h, e, k) && actor == (TraderDayOf(e) in Flagged(h + [e]))
    requires existing.Some? <==> k in KeysOf(h, PoolDayOf)
    requires existing.Some? ==> PoolDayRow(existing.value, k, h)
    ensures PoolDayOf(e) == k ==> PoolDayRow(NextPoolDay(existing, c, e, actor), k, h + [e])
    ensures PoolDayOf(e) != k && existing.Some? ==> PoolDayRow(CorrectedPoolDay(existing.value, c, e), k, h + [e])
    ensures PoolDayOf(e) != k && existing.Some? && c == NO_POOL_CORRECTION ==> PoolDayRow(existing.value, k, h + [e])
  {
    GroupAppend(h, e, PoolDayOf, k, One);
    GroupAppend(h, e, PoolDayOf, k, Volume);
    PrimaryMoves(h, e, PoolDayOf, k, One);
    PrimaryMoves(h, e, PoolDayOf, k, Volume);
  }

  lemma PoolDaysStep(rows: map<PoolDayKey, PoolDay>, corrections: map<string, PoolCorrection>, h: seq<Swap>, e: Swap, actor: bool)
    requires Accepted(e) && PoolDaysAgree(rows, h) && actor == (TraderDayOf(e) in Flagged(h + [e]))
    requires forall k :: ExactPoolCorrection(PoolCorrectionAt(corrections, e, k), h, e, k)
    ensures PoolDaysAgree(PutPoolDay(rows, e, corrections, actor), h + [e])
  {
    hide KeysOf, Flagged, PoolDayRow, ExactPoolCorrection, NextPoolDay, CorrectedPoolDay;
    var rows' := PutPoolDay(rows, e, corrections, actor);
    KeysOfAppend(h, e, PoolDayOf);
    forall k | k in rows' ensures PoolDayRow(rows'[k], k, h + [e]) {
      PoolDayRowMoves(Lookup(rows, k), PoolCorrectionAt(corrections, e, k), k, h, e, actor);
    }
  }

  // ---------------------------------------------------------------- aggregator-days

  lemma AggTradersMove(c: AggCorrection, k: AggDayKey, h: seq<Swap>, e: Swap, firstTouch: bool)
    requires Accepted(e) && ExactAggCorrection(c, h, e, k)
    requires AggDayOf(e) == k ==> (firstTouch <==> AggTraderOf(e) !in KeysOf(h, AggTraderOf))
    ensures
      var mine := AggDayOf(e) == k;
      && |TradersBut(h + [e], k, {})| == |TradersBut(h, k, {})| + (if mine && firstTouch then 1 else 0)
      && |TradersBut(h + [e], k, Flagged(h + [e]))| == |TradersBut(h, k, Flagged(h))| - c.uniqueTraders
           + (if mine && firstTouch && TraderDayOf(e) !in Flagged(h + [e]) then 1 else 0)
  {
    hide Flagged, KeysOf, TradersBut, AggregatorsOn, SumOf, TakenOut;
    var td, after := TraderDayOf(e), Flagged(h + [e]);
    var all, primary := TradersBut(h, k, {}), TradersBut(h, k, after);
    TradersButAppend(h, e, k, {});
    TradersButAppend(h, e, k, after);
    OneMore(all, e.caller);
    OneMore(primary, e.caller);
    if AggDayOf(e) == k {
      AggregatorListed(h, e, e.aggregator);
      assert e.caller in all <==> !firstTouch;
      if td !in after {
        OwnTrader(h, e, k, after);
        assert TradersBut(h + [e], k, after) == primary + {e.caller};
      } else {
        assert TradersBut(h + [e], k, after) == primary;
      }
    } else {
      assert TradersBut(h + [e], k, {}) == all && TradersBut(h + [e], k, after) == primary;
    }
  }

  lemma OneMore(members: set<string>, x: string)
    ensures |members + {x}| == |members| + (if x in members then 0 else 1)
  {
    if x in members { assert members + {x} == members; }
  }

  lemma AggLastMoves(existing: Option<AggDay>, k: AggDayKey, h: seq<Swap>, e: Swap)
    requires Accepted(e)
    requires existing.Some? ==> AggDayRow(existing.value, k, h)
    ensures AggDayOf(e) == k ==> IsLastOf(h + [e], AggDayOf, k, e)
    ensures AggDayOf(e) != k && existing.Some? ==>
      exists x :: IsLastOf(h + [e], AggDayOf, k, x) && existing.value.lastSeenAddress == x.txTo
  {
    if AggDayOf(e) == k {
      LastIsNew(h, e, AggDayOf);
    } else if existing.Some? {
      var last :| IsLastOf(h, AggDayOf, k, last) && existing.value.lastSeenAddress == last.txTo;
      LastStays(h, e, AggDayOf, k, last);
    }
  }

  lemma AggDayRowMoves(existing: Option<AggDay>, c: AggCorrection, k: AggDayKey, h: seq<Swap>, e: Swap, actor: bool, firstTouch: bool)
    requires Accepted(e) && ExactAggCorrection(c, h, e, k) && actor == (TraderDayOf(e) in Flagged(h + [e]))
    requires firstTouch <==> AggTraderOf(e) !in KeysOf(h, AggTraderOf)
    requires existing.Some? <==> k in KeysOf(h, AggDayOf)
    requires existing.Some? ==> AggDayRow(existing.value, k, h)
    ensures AggDayOf(e) == k ==> AggDayRow(NextAggDay(existing, c, e, actor, firstTouch), k, h + [e])
    ensures AggDayOf(e) != k && existing.Some? ==> AggDayRow(CorrectedAggDay(existing.value, c), k, h + [e])
    ensures AggDayOf(e) != k && existing.Some? && c == NO_AGG_CORRECTION ==> AggDayRow(existing.value, k, h + [e])
  {
    hide Flagged, KeysOf, SumOf, InGroup, InGroupBut, IsLastOf, Flags, TakenOut, TradersBut;
    GroupAppend(h, e, AggDayOf, k, One);
    GroupAppend(h, e, AggDayOf, k, Volume);
    GroupAppend(h, e, AggDayOf, k, Fees);
    PrimaryMoves(h, e, AggDayOf, k, One);
    PrimaryMoves(h, e, AggDayOf, k, Volume);
    PrimaryMoves(h, e, AggDayOf, k, Fees);
    AggTradersMove(c, k, h, e, firstTouch);
    AggLastMoves(existing, k, h, e);
    if k !in KeysOf(h, AggDayOf) {
      NoTradersYet(h, k, {});
      NoTradersYet(h, k, Flagged(h));
    }
  }

  lemma AggDaysStep(rows: map<AggDayKey, AggDay>, corrections: map<string, AggCorrection>, h: seq<Swap>, e: Swap, actor: bool, firstTouch: bool)
    requires Accepted(e) && AggDaysAgree(rows, h) && actor == (TraderDayOf(e) in Flagged(h + [e]))
    requires firstTouch <==> AggTraderOf(e) !in KeysOf(h, AggTraderOf)
    requires forall k :: ExactAggCorrection(AggCorrectionAt(corrections, e, k), h, e, k)
    ensures AggDaysAgree(PutAggDay(rows, e, corrections, actor, firstTouch), h + [e])
  {
    hide KeysOf, Flagged, AggDayRow, ExactAggCorrection, NextAggDay, CorrectedAggDay;
    var rows' := PutAggDay(rows, e, corrections, actor, firstTouch);
    KeysOfAppend(h, e, AggDayOf);
    forall k | k in rows' ensures AggDayRow(rows'[k], k, h + [e]) {
      AggDayRowMoves(Lookup(rows, k), AggCorrectionAt(corrections, e, k), k, h, e, actor, firstTouch);
    }
  }
}
