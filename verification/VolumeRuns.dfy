/** The rollup tables after any history of swaps. */
module VolumeRuns {
  import opened Ordering
  import opened Outcomes
  import opened Sums
  import opened VolumeHistory
  import opened VolumeRollups
  import opened VolumeRollupProofs

  function AcceptedOf(h: seq<Swap>): seq<Swap> {
    if h == [] then [] else
      AcceptedOf(h[..|h| - 1]) + (if Accepted(h[|h| - 1]) then [h[|h| - 1]] else [])
  }

  function TablesOf(h: seq<Swap>): Tables {
    if h == [] then NO_TABLES else TablesAfter(TablesOf(h[..|h| - 1]), h[|h| - 1])
  }

  lemma AcceptedOfAppend(h: seq<Swap>, e: Swap)
    ensures AcceptedOf(h + [e]) == AcceptedOf(h) + (if Accepted(e) then [e] else [])
    ensures TablesOf(h + [e]) == TablesAfter(TablesOf(h), e)
  {
    assert (h + [e])[..|h|] == h;
  }

  /** Corrections computed from agreeing tables are exact for every group. */
  lemma CorrectionsAreExact(t: Tables, h: seq<Swap>, e: Swap)
    requires Accepted(e) && Agree(t, h)
    ensures
      var traderDay := Lookup(t.traderDays, TraderDayOf(e));
      && (forall k :: ExactPoolCorrection(PoolCorrectionAt(PoolCorrectionsOf(traderDay, t.traderPoolDays, e), e, k), h, e, k))
      && (forall k :: ExactAggCorrection(AggCorrectionAt(AggCorrectionsOf(traderDay, t.aggMarkers, e), e, k), h, e, k))
  {
    hide ExactPoolCorrection, ExactAggCorrection, TraderDayRow, KeysOf, PoolCorrectionsOf, AggCorrectionsOf, PoolCorrectionAt, AggCorrectionAt;
    var traderDay := Lookup(t.traderDays, TraderDayOf(e));
    forall k ensures ExactPoolCorrection(PoolCorrectionAt(PoolCorrectionsOf(traderDay, t.traderPoolDays, e), e, k), h, e, k) {
      PoolCorrectionIsExact(traderDay, t.traderPoolDays, h, e, k);
    }
    forall k ensures ExactAggCorrection(AggCorrectionAt(AggCorrectionsOf(traderDay, t.aggMarkers, e), e, k), h, e, k) {
      AggCorrectionIsExact(traderDay, t.aggMarkers, h, e, k);
    }
  }

  lemma ActorMeaning(t: Tables, h: seq<Swap>, e: Swap)
    requires Accepted(e) && TraderDaysAgree(t.traderDays, h)
    ensures ActorAfter(Lookup(t.traderDays, TraderDayOf(e)), e) == (TraderDayOf(e) in Flagged(h + [e]))
  {
    hide KeysOf, Flagged;
    var traderDay := Lookup(t.traderDays, TraderDayOf(e));
    if traderDay.Some? { assert TraderDayRow(traderDay.value, TraderDayOf(e), h); }
    FlagMeaning(traderDay, h, e);
  }

  /** One accepted swap keeps all tables equal to their recomputation. */
  lemma AgreeStep(t: Tables, h: seq<Swap>, e: Swap)
    requires Accepted(e) && Agree(t, h)
    ensures Agree(TablesAfter(t, e), h + [e])
  {
    hide TraderDaysAgree, AllTimeAgrees, TraderPoolDaysAgree, PoolDaysAgree, AggDaysAgree, ExactPoolCorrection,
      ExactAggCorrection, KeysOf, Flagged, ActorAfter, PoolCorrectionsOf, AggCorrectionsOf, PutAggDay, PutPoolDay,
      PutTraderDay, PutTraderPoolDay, PutAggMarker, PutAllTime, AggMarkerRow, PoolCorrectionAt, AggCorrectionAt;
    var traderDay := Lookup(t.traderDays, TraderDayOf(e));
    var actor := ActorAfter(traderDay, e);
    ActorMeaning(t, h, e);
    CorrectionsAreExact(t, h, e);
    KeysOfAppend(h, e, TraderPoolOf);
    TraderDaysStep(t.traderDays, t.poolMarkers, h, e);
    AllTimeStep(t.allTime, h, e);
    TraderPoolDaysStep(t.traderPoolDays, h, e);
    AggMarkersStep(t.aggMarkers, h, e, actor);
    PoolDaysStep(t.poolDays, PoolCorrectionsOf(traderDay, t.traderPoolDays, e), h, e, actor);
    AggDaysStep(t.aggDays, AggCorrectionsOf(traderDay, t.aggMarkers, e), h, e, actor, AggTraderOf(e) !in t.aggMarkers);
  }

  lemma EmptyAgrees()
    ensures Agree(NO_TABLES, [])
  {
  }

  /** After any history, every table is its recomputation from the accepted swaps. */
  lemma {:induction false} TablesAgree(h: seq<Swap>)
    ensures Agree(TablesOf(h), AcceptedOf(h))
  {
    hide TraderDaysAgree, AllTimeAgrees, TraderPoolDaysAgree, PoolDaysAgree, AggDaysAgree, AggMarkersAgree,
      KeysOf, DailyTablesAfter, PutAllTime;
    if h == [] {
      EmptyAgrees();
    } else {
      var init, e := h[..|h| - 1], h[|h| - 1];
      TablesAgree(init);
      AcceptedOfAppend(init, e);
      assert h == init + [e];
      if Accepted(e) {
        AgreeStep(TablesOf(init), AcceptedOf(init), e);
      } else {
        assert AcceptedOf(h) == AcceptedOf(init);
      }
    }
  }

  // ---------------------------------------------------------------- consequences

  /** No clamp ever bites: what a swap subtracts from a row is at most what the row holds. */
  lemma ClampsNeverBite(h: seq<Swap>, e: Swap)
    requires Accepted(e)
    ensures
      var t := TablesOf(h);
      var traderDay := Lookup(t.traderDays, TraderDayOf(e));
      && (forall k :: k in t.poolDays ==>
            var c, row := PoolCorrectionAt(PoolCorrectionsOf(traderDay, t.traderPoolDays, e), e, k), t.poolDays[k];
            0 <= c.swapCount <= row.swapCount && 0 <= c.volume <= row.volume)
      && (forall k :: k in t.aggDays ==>
            var c, row := AggCorrectionAt(AggCorrectionsOf(traderDay, t.aggMarkers, e), e, k), t.aggDays[k];
            0 <= c.swapCount <= row.swapCount && 0 <= c.volume <= row.volume && 0 <= c.fees <= row.fees
            && c.uniqueTraders <= row.uniqueTraders)
  {
    hide KeysOf, Flagged, PoolCorrectionsOf, AggCorrectionsOf, PoolCorrectionAt, AggCorrectionAt, SumOf, TakenOut,
      InGroup, InGroupBut, TradersBut, IsLastOf, TraderDaysAgree, AllTimeAgrees, TraderPoolDaysAgree, AggMarkersAgree;
    var t, g := TablesOf(h), AcceptedOf(h);
    TablesAgree(h);
    CorrectionsAreExact(t, g, e);
    forall k | k in t.poolDays ensures
      && 0 <= TakenOut(g, e, PoolDayOf, k, One) <= t.poolDays[k].swapCount
      && 0 <= TakenOut(g, e, PoolDayOf, k, Volume) <= t.poolDays[k].volume
    {
      assert PoolDayRow(t.poolDays[k], k, g);
      TakenOutIsThere(g, e, PoolDayOf, k, One);
      TakenOutIsThere(g, e, PoolDayOf, k, Volume);
    }
    forall k | k in t.aggDays ensures
      && 0 <= TakenOut(g, e, AggDayOf, k, One) <= t.aggDays[k].swapCount
      && 0 <= TakenOut(g, e, AggDayOf, k, Volume) <= t.aggDays[k].volume
      && 0 <= TakenOut(g, e, AggDayOf, k, Fees) <= t.aggDays[k].fees
      && t.aggDays[k].uniqueTraders == |TradersBut(g, k, Flagged(g))|
    {
      assert AggDayRow(t.aggDays[k], k, g);
      TakenOutIsThere(g, e, AggDayOf, k, One);
      TakenOutIsThere(g, e, AggDayOf, k, Volume);
      TakenOutIsThere(g, e, AggDayOf, k, Fees);
    }
  }

  lemma {:induction false} AcceptedOfPermutation(a: seq<Swap>, b: seq<Swap>)
    requires multiset(a) == multiset(b)
    ensures multiset(AcceptedOf(a)) == multiset(AcceptedOf(b))
  {
    AcceptedCount(a);
    AcceptedCount(b);
    forall e ensures multiset(AcceptedOf(a))[e] == multiset(AcceptedOf(b))[e] {}
  }

  lemma {:induction false} AcceptedCount(h: seq<Swap>)
    ensures forall e :: multiset(AcceptedOf(h))[e] == if Accepted(e) then multiset(h)[e] else 0
  {
    if h != [] {
      AcceptedCount(h[..|h| - 1]);
      assert h == h[..|h| - 1] + [h[|h| - 1]];
    }
  }

  lemma PermutedGroups(a: seq<Swap>, b: seq<Swap>)
    requires multiset(a) == multiset(b)
    ensures Flagged(a) == Flagged(b)
    ensures forall k, flagged :: TradersBut(a, k, flagged) == TradersBut(b, k, flagged)
    ensures KeysOf(a, PoolDayOf) == KeysOf(b, PoolDayOf) && KeysOf(a, AggDayOf) == KeysOf(b, AggDayOf)
  {
    assert forall e :: e in a <==> e in multiset(a);
    assert forall e :: e in b <==> e in multiset(b);
    assert forall e :: e in a <==> e in b;
  }

  /** The order of the swaps does not matter to any total. */
  lemma OrderDoesNotMatter(a: seq<Swap>, b: seq<Swap>)
    requires multiset(a) == multiset(b)
    ensures TablesOf(a).poolDays.Keys == TablesOf(b).poolDays.Keys
    ensures forall k :: k in TablesOf(a).poolDays ==>
      var x, y := TablesOf(a).poolDays[k], TablesOf(b).poolDays[k];
      x.swapCount == y.swapCount && x.volume == y.volume && x.swapCountAll == y.swapCountAll && x.volumeAll == y.volumeAll
    ensures TablesOf(a).aggDays.Keys == TablesOf(b).aggDays.Keys
    ensures forall k :: k in TablesOf(a).aggDays ==>
      var x, y := TablesOf(a).aggDays[k], TablesOf(b).aggDays[k];
      x.(lastSeenAddress := "") == y.(lastSeenAddress := "")
  {
    hide KeysOf, Flagged, SumOf, InGroup, InGroupBut, TradersBut, IsLastOf, TraderDaysAgree, AllTimeAgrees,
      TraderPoolDaysAgree, AggMarkersAgree, TablesOf, AcceptedOf;
    var g, g' := AcceptedOf(a), AcceptedOf(b);
    TablesAgree(a);
    TablesAgree(b);
    AcceptedOfPermutation(a, b);
    PermutedGroups(g, g');
    forall p, value ensures SumOf(g, p, value) == SumOf(g', p, value) { SumOfPermutation(g, g', p, value); }
    forall k | k in TablesOf(a).poolDays ensures
      var x, y := TablesOf(a).poolDays[k], TablesOf(b).poolDays[k];
      x.swapCount == y.swapCount && x.volume == y.volume && x.swapCountAll == y.swapCountAll && x.volumeAll == y.volumeAll
    {
      assert PoolDayRow(TablesOf(a).poolDays[k], k, g) && PoolDayRow(TablesOf(b).poolDays[k], k, g');
    }
    forall k | k in TablesOf(a).aggDays ensures
      TablesOf(a).aggDays[k].(lastSeenAddress := "") == TablesOf(b).aggDays[k].(lastSeenAddress := "")
    {
      assert AggDayRow(TablesOf(a).aggDays[k], k, g) && AggDayRow(TablesOf(b).aggDays[k], k, g');
    }
  }

  /** Applying a swap again changes nothing if and only if the swap is refused: the markers stop only
      the second count of a trader, the totals count an accepted swap every time. */
  lemma RepeatedSwapCountsAgain(h: seq<Swap>, e: Swap)
    ensures TablesOf(h + [e] + [e]) == TablesOf(h + [e]) <==> e.caller == "" || e.volume == 0
  {
    hide TablesOf, AcceptedOf, TraderDaysAgree, AllTimeAgrees, TraderPoolDaysAgree, AggDaysAgree, AggMarkersAgree, DayBucket;
    AcceptedOfAppend(h, e);
    AcceptedOfAppend(h + [e], e);
    if Accepted(e) {
      TablesAgree(h + [e]);
      TablesAgree(h + [e] + [e]);
      KeysOfAppend(AcceptedOf(h), e, PoolDayOf);
      KeysOfAppend(AcceptedOf(h + [e]), e, PoolDayOf);
      SumOfAppend(AcceptedOf(h + [e]), e, InGroup(PoolDayOf, PoolDayOf(e)), One);
      var once, twice, k := TablesOf(h + [e]), TablesOf(h + [e] + [e]), PoolDayOf(e);
      assert twice.poolDays[k].swapCountAll == once.poolDays[k].swapCountAll + 1;
    }
  }

  // ---------------------------------------------------------------- agreement across groupings

  /** Accepted events of one chain and day on unflagged trader-days. */
  ghost function OrganicOn(chain: int, day: int, flagged: set<TraderDayKey>): Swap -> bool {
    (e: Swap) => Accepted(e) && e.chain == chain && e.Day() == day && TraderDayOf(e) !in flagged
  }

  ghost function PoolVolume(rows: map<PoolDayKey, PoolDay>): PoolDayKey -> int {
    (k: PoolDayKey) => if k in rows then rows[k].volume else 0
  }

  ghost function AggVolume(rows: map<AggDayKey, AggDay>): AggDayKey -> int {
    (k: AggDayKey) => if k in rows then rows[k].volume else 0
  }

  ghost function OrganicVolume(rows: map<TraderDayKey, TraderDay>): TraderDayKey -> int {
    (k: TraderDayKey) => if k in rows && !rows[k].actor then rows[k].volume else 0
  }

  ghost function PoolKeysOn(rows: map<PoolDayKey, PoolDay>, chain: int, day: int): set<PoolDayKey> {
    set k | k in rows && k.chain == chain && k.day == day
  }

  ghost function AggKeysOn(rows: map<AggDayKey, AggDay>, chain: int, day: int): set<AggDayKey> {
    set k | k in rows && k.chain == chain && k.day == day
  }

  ghost function TraderKeysOn(rows: map<TraderDayKey, TraderDay>, chain: int, day: int): set<TraderDayKey> {
    set k | k in rows && k.chain == chain && k.day == day
  }

  lemma PoolVolumesOfDay(rows: map<PoolDayKey, PoolDay>, h: seq<Swap>, chain: int, day: int)
    requires PoolDaysAgree(rows, h)
    ensures SumOver(PoolKeysOn(rows, chain, day), PoolVolume(rows)) ==
      SumOf(h, OrganicOn(chain, day, Flagged(h)), Volume)
  {
    hide TradersBut, IsLastOf, PoolsOn, AggregatorsOn, Lists;
    var keys := PoolKeysOn(rows, chain, day);
    var p := OrganicOn(chain, day, Flagged(h));
    forall k | k in keys ensures PoolVolume(rows)(k) == SumOf(h, AtKey(p, PoolDayOf, k), Volume) {
      assert PoolDayRow(rows[k], k, h);
      SumOfSame(h, AtKey(p, PoolDayOf, k), InGroupBut(PoolDayOf, k, Flagged(h)), Volume);
    }
    SumOfKeys(h, p, PoolDayOf, keys, Volume, PoolVolume(rows));
    SumOfSame(h, p, InKeys(p, PoolDayOf, keys), Volume);
  }

  lemma AggVolumesOfDay(rows: map<AggDayKey, AggDay>, h: seq<Swap>, chain: int, day: int)
    requires AggDaysAgree(rows, h)
    ensures SumOver(AggKeysOn(rows, chain, day), AggVolume(rows)) ==
      SumOf(h, OrganicOn(chain, day, Flagged(h)), Volume)
  {
    hide TradersBut, IsLastOf, PoolsOn, AggregatorsOn, Lists;
    var keys := AggKeysOn(rows, chain, day);
    var p := OrganicOn(chain, day, Flagged(h));
    forall k | k in keys ensures AggVolume(rows)(k) == SumOf(h, AtKey(p, AggDayOf, k), Volume) {
      assert AggDayRow(rows[k], k, h);
      SumOfSame(h, AtKey(p, AggDayOf, k), InGroupBut(AggDayOf, k, Flagged(h)), Volume);
    }
    SumOfKeys(h, p, AggDayOf, keys, Volume, AggVolume(rows));
    SumOfSame(h, p, InKeys(p, AggDayOf, keys), Volume);
  }

  lemma OrganicVolumesOfDay(rows: map<TraderDayKey, TraderDay>, h: seq<Swap>, chain: int, day: int)
    requires TraderDaysAgree(rows, h)
    ensures SumOver(TraderKeysOn(rows, chain, day), OrganicVolume(rows)) ==
      SumOf(h, OrganicOn(chain, day, Flagged(h)), Volume)
  {
    hide TradersBut, IsLastOf, PoolsOn, AggregatorsOn, Lists;
    var keys := TraderKeysOn(rows, chain, day);
    var p := OrganicOn(chain, day, Flagged(h));
    forall k | k in keys ensures OrganicVolume(rows)(k) == SumOf(h, AtKey(p, TraderDayOf, k), Volume) {
      assert TraderDayRow(rows[k], k, h);
      if rows[k].actor {
        SumOfNone(h, AtKey(p, TraderDayOf, k), Volume);
      } else {
        SumOfSame(h, AtKey(p, TraderDayOf, k), InGroup(TraderDayOf, k), Volume);
      }
    }
    SumOfKeys(h, p, TraderDayOf, keys, Volume, OrganicVolume(rows));
    SumOfSame(h, p, InKeys(p, TraderDayOf, keys), Volume);
  }

  /** A day's volume is the same summed over pools, over aggregators or over unflagged traders. */
  lemma GroupingsAgree(h: seq<Swap>, chain: int, day: int)
    ensures
      var t := TablesOf(h);
      && SumOver(PoolKeysOn(t.poolDays, chain, day), PoolVolume(t.poolDays))
         == SumOver(AggKeysOn(t.aggDays, chain, day), AggVolume(t.aggDays))
         == SumOver(TraderKeysOn(t.traderDays, chain, day), OrganicVolume(t.traderDays))
  {
    TablesAgree(h);
    PoolVolumesOfDay(TablesOf(h).poolDays, AcceptedOf(h), chain, day);
    AggVolumesOfDay(TablesOf(h).aggDays, AcceptedOf(h), chain, day);
    OrganicVolumesOfDay(TablesOf(h).traderDays, AcceptedOf(h), chain, day);
  }
}
