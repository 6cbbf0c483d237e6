/** What the flushed window rows mean: each equals its recomputation from the whole history. */
module VolumeFlushProofs {
  import opened Ordering
  import opened Sums
  import opened VolumeHistory
  import opened VolumeRollups
  import opened VolumeWindow
  import opened VolumeFlush

  // ---------------------------------------------------------------- lists of days

  lemma {:induction false} DaysFromMembers(first: int, last: int)
    ensures forall d :: d in DaysFrom(first, last) <==> first <= d <= last && (d - first) % SECONDS_PER_DAY == 0
    ensures Sorted(DaysFrom(first, last), IntLeq) && Distinct(DaysFrom(first, last))
    decreases last - first
  {
    if first <= last {
      var rest := DaysFrom(first + SECONDS_PER_DAY, last);
      DaysFromMembers(first + SECONDS_PER_DAY, last);
      forall d ensures d in [first] + rest <==> first <= d <= last && (d - first) % SECONDS_PER_DAY == 0 {
        assert (d - first) % SECONDS_PER_DAY == (d - (first + SECONDS_PER_DAY)) % SECONDS_PER_DAY;
        if d in rest {} else if first < d < first + SECONDS_PER_DAY { assert (d - first) % SECONDS_PER_DAY == d - first; }
      }
      assert forall i :: 0 <= i < |rest| ==> rest[i] in rest;
    }
  }

  lemma {:induction false} DaysFromConcat(first: int, days: nat, last: int)
    requires first + days * SECONDS_PER_DAY <= last
    ensures DaysFrom(first, first + days * SECONDS_PER_DAY) + DaysFrom(first + (days + 1) * SECONDS_PER_DAY, last) == DaysFrom(first, last)
    decreases days
  {
    if days == 0 {
      assert DaysFrom(first + SECONDS_PER_DAY, first) == [];
    } else {
      DaysFromConcat(first + SECONDS_PER_DAY, days - 1, last);
    }
  }

  lemma DayAligned(t: nat)
    ensures DayBucket(t) % 86400 == 0 && DayBucket(t) <= t < DayBucket(t) + 86400
  {
  }

  lemma DayMonotone(t: nat, u: nat)
    requires t <= u
    ensures DayBucket(t) <= DayBucket(u)
  {
  }

  // ---------------------------------------------------------------- the cursor

  /** How the cursor and the flushed days follow from the first and the latest day seen. */
  ghost predicate Follows(first: int, latest: int, cursor: int, flushes: seq<int>) {
    && (first == 0 <==> latest <= SECONDS_PER_DAY) && 0 <= first <= latest
    && first % SECONDS_PER_DAY == 0 && latest % SECONDS_PER_DAY == 0
    && cursor == (if first == 0 then 0 else latest - SECONDS_PER_DAY)
    && flushes == (if first == 0 then [] else DaysFrom(first - SECONDS_PER_DAY, latest - SECONDS_PER_DAY))
  }

  lemma FollowsOn(first: int, latest: int, cursor: int, flushes: seq<int>, day: nat)
    requires Follows(first, latest, cursor, flushes) && day % SECONDS_PER_DAY == 0
    ensures Follows(NextFirst(first, day), NextLatest(latest, day),
      if cursor >= day - SECONDS_PER_DAY then cursor else day - SECONDS_PER_DAY, flushes + ClosedDays(cursor, day))
  {
    if first == 0 {
      assert flushes + ClosedDays(cursor, day) == ClosedDays(cursor, day);
    } else if day > latest {
      var days := (latest - first) / SECONDS_PER_DAY;
      assert first + days * SECONDS_PER_DAY == latest;
      DaysFromConcat(first - SECONDS_PER_DAY, days, day - SECONDS_PER_DAY);
    } else {
      assert flushes + [] == flushes;
    }
  }

  ghost predicate CursorIs(h: seq<Event>, chain: int, v: Venue) {
    Follows(FirstDay(h, chain, v), LatestDay(h, chain, v), Cursor(StoreOf(h).cursors, chain, v), FlushesOf(h, chain, v))
  }

  lemma CursorStays(s: Store, x: Event, chain: int, v: Venue)
    requires !(x.Chain() == chain && x.On() == v)
    ensures Cursor(After(s, x).cursors, chain, v) == Cursor(s.cursors, chain, v)
  {
    hide FlushDays, DailyTablesAfter, PutAllTime, ClosedDays, DayBucket;
  }

  lemma CursorMoves(s: Store, x: Event)
    ensures
      var last, lastClosed := Cursor(s.cursors, x.Chain(), x.On()), x.Day() - SECONDS_PER_DAY;
      Cursor(After(s, x).cursors, x.Chain(), x.On()) == if last >= lastClosed then last else lastClosed
  {
    hide FlushDays, DailyTablesAfter, PutAllTime, ClosedDays, DayBucket;
  }

  lemma {:induction false} CursorOnRuns(h: seq<Event>, chain: int, v: Venue)
    ensures CursorIs(h, chain, v)
  {
    hide After, DayBucket, DaysFrom, ClosedDays, Follows, Cursor, NextFirst, NextLatest;
    if h == [] {
      NothingFlushed(chain, v);
    } else {
      var init, x := h[..|h| - 1], h[|h| - 1];
      CursorOnRuns(init, chain, v);
      DayAligned(x.Time());
      if x.Chain() == chain && x.On() == v {
        CursorMoves(StoreOf(init), x);
        FollowsOn(FirstDay(init, chain, v), LatestDay(init, chain, v), Cursor(StoreOf(init).cursors, chain, v), FlushesOf(init, chain, v), x.Day());
      } else {
        CursorStays(StoreOf(init), x, chain, v);
        assert FlushesOf(init, chain, v) + [] == FlushesOf(init, chain, v);
      }
    }
  }

  lemma NothingFlushed(chain: int, v: Venue)
    ensures CursorIs([], chain, v)
  {
  }

  /** On every run, a chain's cursor is the latest closed day, and the days flushed so far are
      all the days from the one before the first event (past day one) up to it, once each. */
  lemma EveryClosedDayOnce(h: seq<Event>, chain: int, v: Venue)
    ensures
      var first, latest := FirstDay(h, chain, v), LatestDay(h, chain, v);
      && Cursor(StoreOf(h).cursors, chain, v) == (if first == 0 then 0 else latest - SECONDS_PER_DAY)
      && Distinct(FlushesOf(h, chain, v))
      && (forall d :: d in FlushesOf(h, chain, v) <==>
            first != 0 && d % SECONDS_PER_DAY == 0 && first - SECONDS_PER_DAY <= d <= latest - SECONDS_PER_DAY)
  {
    hide DaysFrom, FirstDay, LatestDay, StoreOf, FlushesOf;
    CursorOnRuns(h, chain, v);
    var first, latest := FirstDay(h, chain, v), LatestDay(h, chain, v);
    if first != 0 {
      DaysFromMembers(first - SECONDS_PER_DAY, latest - SECONDS_PER_DAY);
      forall d ensures (d - (first - SECONDS_PER_DAY)) % SECONDS_PER_DAY == 0 <==> d % SECONDS_PER_DAY == 0 {
        AlignedDifference(d, first - SECONDS_PER_DAY);
      }
    }
  }

  lemma AlignedDifference(d: int, base: int)
    requires base % SECONDS_PER_DAY == 0
    ensures (d - base) % SECONDS_PER_DAY == 0 <==> d % SECONDS_PER_DAY == 0
  {
  }

  // ---------------------------------------------------------------- daily rows against the history

  lemma TableSum(rows: map<TraderDayKey, TraderDay>, h: seq<Swap>, p: DailyRow -> bool, q: Swap -> bool,
      value: Swap -> int, rowValue: DailyRow -> int)
    requires rows.Keys == KeysOf(h, TraderDayOf)
    requires forall k :: k in rows ==> rowValue(DailyAt(rows)(k)) == SumOf(h, InGroup(TraderDayOf, k), value)
    requires forall e :: e in h ==> (q(e) <==> Accepted(e) && p(DailyAt(rows)(TraderDayOf(e))))
    ensures SumOver(DaysThat(rows, p), Of(DailyAt(rows), rowValue)) == SumOf(h, q, value)
  {
    hide DailyAt, TraderDayOf, Accepted;
    var keys := DaysThat(rows, p);
    forall k | k in keys ensures Of(DailyAt(rows), rowValue)(k) == SumOf(h, AtKey(q, TraderDayOf, k), value) {
      SumOfSame(h, AtKey(q, TraderDayOf, k), InGroup(TraderDayOf, k), value);
    }
    SumOfKeys(h, q, TraderDayOf, keys, value, Of(DailyAt(rows), rowValue));
    forall e | e in h ensures q(e) == InKeys(q, TraderDayOf, keys)(e) {
      if q(e) { assert TraderDayOf(e) in KeysOf(h, TraderDayOf); }
    }
    SumOfSame(h, q, InKeys(q, TraderDayOf, keys), value);
  }

  ghost predicate RowsAddUp(rows: map<TraderDayKey, TraderDay>, h: seq<Swap>) {
    && rows.Keys == KeysOf(h, TraderDayOf)
    && (forall k :: k in rows ==> RowVolume(DailyAt(rows)(k)) == SumOf(h, InGroup(TraderDayOf, k), Volume))
    && (forall k :: k in rows ==> RowSwaps(DailyAt(rows)(k)) == SumOf(h, InGroup(TraderDayOf, k), One))
    && (forall k :: k in rows ==> (rows[k].actor <==> k in Flagged(h)))
  }

  lemma AgreeingRowsAddUp(rows: map<TraderDayKey, TraderDay>, h: seq<Swap>)
    requires TraderDaysAgree(rows, h)
    ensures RowsAddUp(rows, h)
  {
    hide KeysOf, SumOf, InGroup, Flagged, PoolsOn, AggregatorsOn, Lists, IsLastOf;
    forall k | k in rows ensures
      && RowVolume(DailyAt(rows)(k)) == SumOf(h, InGroup(TraderDayOf, k), Volume)
      && RowSwaps(DailyAt(rows)(k)) == SumOf(h, InGroup(TraderDayOf, k), One)
      && (rows[k].actor <==> k in Flagged(h))
    {
      assert TraderDayRow(rows[k], k, h);
    }
  }

  /** The bounds of the scan in days: what lies in each window, what is its first day, and the
      start its row shows. */
  lemma WindowRangeMeans(w: Window, day: int, d: nat)
    ensures WindowStartDay(day, w) <= d <= day <==> InRange(w, day, d)
    ensures HasFirstDay(w) && d == WindowStartDay(day, w) <==> AtBound(w, day, d)
    ensures HasFirstDay(w) <==> w != W24h && w != WAll
    ensures WindowStartDay(day, w) == ShownStart(w, day)
  {
  }

  /** An event lies in the window exactly when its trader-day row does. */
  lemma EventsAndRows(rows: map<TraderDayKey, TraderDay>, chain: int, day: int, w: Window, trader: string, e: Swap)
    ensures EventsIn(chain, day, w, trader)(e) <==> Accepted(e) && InWindowOf(chain, day, w, trader)(DailyAt(rows)(TraderDayOf(e)))
    ensures EventsOnFirstDay(chain, day, w, trader)(e) <==> Accepted(e) && OnFirstDayOf(chain, day, w, trader)(DailyAt(rows)(TraderDayOf(e)))
  {
    var r := DailyAt(rows)(TraderDayOf(e));
    assert r.chain == e.chain && r.trader == e.caller && r.timestamp == e.Day();
    WindowRangeMeans(w, day, e.Day());
    assert InWindow(chain, day, w)(r) <==> e.chain == chain && WindowStartDay(day, w) <= e.Day() <= day;
  }

  /** The row built from the aggregates shows that start. */
  lemma RowShowsStart(aggs: map<string, TraderAgg>, chain: int, w: Window, day: int, block: int, updatedAt: int)
    ensures
      var row := RowFrom(aggs, chain, w, day, block, updatedAt);
      row.(windowStartDay := ShownStart(w, day)) == row
  {
    hide SideOf;
    WindowRangeMeans(w, day, 0);
  }

  /** A row of the window meets a condition exactly when some event of the window does. */
  lemma RowsAndEvents(rows: map<TraderDayKey, TraderDay>, h: seq<Swap>, p: DailyRow -> bool, q: Swap -> bool,
      ofRow: TraderDayKey -> bool, ofEvent: Swap -> bool)
    requires rows.Keys == KeysOf(h, TraderDayOf)
    requires forall e :: q(e) <==> Accepted(e) && p(DailyAt(rows)(TraderDayOf(e)))
    requires forall k :: k in rows ==> (ofRow(k) <==> exists e :: e in h && Accepted(e) && TraderDayOf(e) == k && ofEvent(e))
    ensures (exists k :: k in DaysThat(rows, p) && ofRow(k)) <==> exists e :: e in h && q(e) && ofEvent(e)
  {
    hide DailyAt, Accepted, TraderDayOf;
    if k :| k in DaysThat(rows, p) && ofRow(k) {
      var e :| e in h && Accepted(e) && TraderDayOf(e) == k && ofEvent(e);
      assert q(e);
    }
    if e :| e in h && q(e) && ofEvent(e) {
      assert TraderDayOf(e) in KeysOf(h, TraderDayOf);
      assert TraderDayOf(e) in DaysThat(rows, p) && ofRow(TraderDayOf(e));
    }
  }

  lemma DailyAggActor(rows: map<TraderDayKey, TraderDay>, h: seq<Swap>, chain: int, day: int, w: Window, trader: string)
    requires RowsAddUp(rows, h)
    ensures DailyAgg(rows, chain, day, w, trader).actor <==> HistoryAgg(h, chain, day, w, trader).actor
  {
    hide WindowStartDay, DayBucket, Accepted, SumOf, SumOver, EventsIn, InWindowOf, InGroup, DailyAt, DaysThat,
      OnFirstDayOf, EventsOnFirstDay, KeysOf, Flagged, TraderDayOf, HasFirstDay;
    var p, q := InWindowOf(chain, day, w, trader), EventsIn(chain, day, w, trader);
    forall e ensures q(e) <==> Accepted(e) && p(DailyAt(rows)(TraderDayOf(e))) { EventsAndRows(rows, chain, day, w, trader, e); }
    DaysAreRows(rows, p);
    ActorDays(rows, h);
    RowsAndEvents(rows, h, p, q, ActorDay(rows), ActorSwap());
    assert DailyAgg(rows, chain, day, w, trader).actor <==> exists k :: k in DaysThat(rows, p) && ActorDay(rows)(k);
  }

  lemma DailyAggOutside(rows: map<TraderDayKey, TraderDay>, h: seq<Swap>, chain: int, day: int, w: Window, trader: string)
    requires rows.Keys == KeysOf(h, TraderDayOf)
    ensures DailyAgg(rows, chain, day, w, trader).activeOutside <==> HistoryAgg(h, chain, day, w, trader).activeOutside
  {
    hide WindowStartDay, DayBucket, Accepted, SumOf, SumOver, EventsIn, InWindowOf, DailyAt, DaysThat,
      OnFirstDayOf, EventsOnFirstDay, KeysOf, TraderDayOf, HasFirstDay;
    var p, q := InWindowOf(chain, day, w, trader), EventsIn(chain, day, w, trader);
    var start := WindowStartDay(day, w);
    forall e ensures q(e) <==> Accepted(e) && p(DailyAt(rows)(TraderDayOf(e))) { EventsAndRows(rows, chain, day, w, trader, e); }
    OutsideDays(rows, h, start);
    RowsAndEvents(rows, h, p, q, DayOutside(start), SwapOutside(start));
    forall e: Swap ensures SwapOutside(start)(e) && HasFirstDay(w) <==> HasFirstDay(w) && !AtBound(w, day, e.Day()) { WindowRangeMeans(w, day, e.Day()); }
    WindowRangeMeans(w, day, 0);
    assert DailyAgg(rows, chain, day, w, trader).activeOutside <==>
      !HasFirstDay(w) || exists k :: k in DaysThat(rows, p) && DayOutside(start)(k) by { DaysAreRows(rows, p); }
  }

  ghost function ActorDay(rows: map<TraderDayKey, TraderDay>): TraderDayKey -> bool {
    (k: TraderDayKey) => k in rows && rows[k].actor
  }

  ghost function ActorSwap(): Swap -> bool { (e: Swap) => e.actor }

  ghost function DayOutside(start: int): TraderDayKey -> bool { (k: TraderDayKey) => k.day != start }

  ghost function SwapOutside(start: int): Swap -> bool { (e: Swap) => e.Day() != start }

  lemma ActorDays(rows: map<TraderDayKey, TraderDay>, h: seq<Swap>)
    requires RowsAddUp(rows, h)
    ensures forall k :: k in rows ==> (ActorDay(rows)(k) <==> exists e :: e in h && Accepted(e) && TraderDayOf(e) == k && ActorSwap()(e))
  {
    hide SumOf, InGroup, DailyAt, KeysOf, TraderDayOf, Accepted;
    forall k | k in rows ensures ActorDay(rows)(k) <==> exists e :: e in h && Accepted(e) && TraderDayOf(e) == k && ActorSwap()(e) {
      if k in Flagged(h) {
        var e :| e in h && Accepted(e) && e.actor && TraderDayOf(e) == k;
        assert ActorSwap()(e);
      }
    }
  }

  lemma OutsideDays(rows: map<TraderDayKey, TraderDay>, h: seq<Swap>, start: int)
    requires rows.Keys == KeysOf(h, TraderDayOf)
    ensures forall k :: k in rows ==> (DayOutside(start)(k) <==> exists e :: e in h && Accepted(e) && TraderDayOf(e) == k && SwapOutside(start)(e))
  {
    hide Accepted, DayBucket;
    forall k | k in rows ensures DayOutside(start)(k) <==> exists e :: e in h && Accepted(e) && TraderDayOf(e) == k && SwapOutside(start)(e) {
      var e :| e in h && Accepted(e) && TraderDayOf(e) == k;
      assert e.Day() == k.day;
    }
  }

  lemma DaysAreRows(rows: map<TraderDayKey, TraderDay>, p: DailyRow -> bool)
    ensures DaysThat(rows, p) <= rows.Keys
  {
  }

  lemma DailyAggSums(rows: map<TraderDayKey, TraderDay>, h: seq<Swap>, chain: int, day: int, w: Window, trader: string)
    requires RowsAddUp(rows, h)
    ensures
      var a, b := DailyAgg(rows, chain, day, w, trader), HistoryAgg(h, chain, day, w, trader);
      a.trader == b.trader && a.volume == b.volume && a.swapCount == b.swapCount
      && a.firstDayVolume == b.firstDayVolume && a.firstDaySwapCount == b.firstDaySwapCount
  {
    hide WindowStartDay, DayBucket, Accepted, SumOf, SumOver, EventsIn, InWindowOf, EventsOnFirstDay, OnFirstDayOf, InGroup, KeysOf, DailyAt, DaysThat;
    var p, q := InWindowOf(chain, day, w, trader), EventsIn(chain, day, w, trader);
    var p1, q1 := OnFirstDayOf(chain, day, w, trader), EventsOnFirstDay(chain, day, w, trader);
    forall e ensures q(e) <==> Accepted(e) && p(DailyAt(rows)(TraderDayOf(e))) { EventsAndRows(rows, chain, day, w, trader, e); }
    forall e ensures q1(e) <==> Accepted(e) && p1(DailyAt(rows)(TraderDayOf(e))) { EventsAndRows(rows, chain, day, w, trader, e); }
    TableSum(rows, h, p, q, Volume, RowVolume);
    TableSum(rows, h, p, q, One, RowSwaps);
    TableSum(rows, h, p1, q1, Volume, RowVolume);
    TableSum(rows, h, p1, q1, One, RowSwaps);
  }

  lemma DailyTradersAgree(rows: map<TraderDayKey, TraderDay>, h: seq<Swap>, chain: int, day: int, w: Window)
    requires rows.Keys == KeysOf(h, TraderDayOf)
    ensures DailyTraders(rows, chain, day, w) == HistoryTraders(h, chain, day, w)
  {
    hide InWindow, EventsIn, DailyAt;
    var p := InWindow(chain, day, w);
    forall e: Swap ensures EventsIn(chain, day, w, e.caller)(e) <==> Accepted(e) && p(DailyAt(rows)(TraderDayOf(e))) {
      EventsAndRows(rows, chain, day, w, e.caller, e);
      OwnTraderInWindow(rows, chain, day, w, e);
    }
    forall t ensures t in DailyTraders(rows, chain, day, w) <==> t in HistoryTraders(h, chain, day, w) {
      if t in DailyTraders(rows, chain, day, w) {
        var k :| k in rows && p(DailyAt(rows)(k)) && k.trader == t;
        var e :| e in h && Accepted(e) && TraderDayOf(e) == k;
        assert EventsIn(chain, day, w, e.caller)(e);
      }
      if t in HistoryTraders(h, chain, day, w) {
        var e :| e in h && EventsIn(chain, day, w, e.caller)(e) && e.caller == t;
        assert TraderDayOf(e) in KeysOf(h, TraderDayOf);
        assert TraderDayOf(e) in DaysThat(rows, p);
      }
    }
  }

  lemma OwnTraderInWindow(rows: map<TraderDayKey, TraderDay>, chain: int, day: int, w: Window, e: Swap)
    ensures
      var r := DailyAt(rows)(TraderDayOf(e));
      InWindowOf(chain, day, w, e.caller)(r) <==> InWindow(chain, day, w)(r)
  {
  }

  /** Rolling windows: the daily rows give the same per-trader figures as the swaps themselves. */
  lemma DailyAggsAgree(rows: map<TraderDayKey, TraderDay>, h: seq<Swap>, chain: int, day: int, w: Window)
    requires TraderDaysAgree(rows, h)
    ensures DailyAggs(rows, chain, day, w) == HistoryAggs(h, chain, day, w)
  {
    hide TraderDaysAgree, DailyAgg, HistoryAgg, DailyTraders, HistoryTraders;
    AgreeingRowsAddUp(rows, h);
    DailyTradersAgree(rows, h, chain, day, w);
    forall t ensures DailyAgg(rows, chain, day, w, t) == HistoryAgg(h, chain, day, w, t) {
      DailyAggActor(rows, h, chain, day, w, t);
      DailyAggOutside(rows, h, chain, day, w, t);
      DailyAggSums(rows, h, chain, day, w, t);
    }
  }

  // ---------------------------------------------------------------- the lifetime rollup against the history

  lemma LifetimeAggAgrees(rows: map<TraderKey, TraderAllTime>, h: seq<Swap>, chain: int, day: int, t: string)
    requires AllTimeAgrees(rows, h) && TraderKey(chain, t) in rows
    requires forall e :: e in h && e.chain == chain ==> e.Day() <= day
    ensures
      var row := rows[TraderKey(chain, t)];
      TraderAgg(t, row.volume, row.swapCount, row.actor, 0, 0, true) == HistoryAgg(h, chain, day, WAll, t)
  {
    hide Accepted, DayBucket, IsLastOf, KeysOf;
    var k := TraderKey(chain, t);
    var p, q := EventsIn(chain, day, WAll, t), EventsOnFirstDay(chain, day, WAll, t);
    assert AllTimeRow(rows[k], k, h);
    forall e | e in h ensures InGroup(TraderOf, k)(e) == p(e) && !q(e) {}
    SumOfSame(h, InGroup(TraderOf, k), p, Volume);
    SumOfSame(h, InGroup(TraderOf, k), p, One);
    SumOfNone(h, q, Volume);
    SumOfNone(h, q, One);
    assert ActorEver(h, k) <==> exists e :: e in h && p(e) && e.actor by {
      if e :| e in h && Accepted(e) && TraderOf(e) == k && e.actor { assert InGroup(TraderOf, k)(e); }
      if e :| e in h && p(e) && e.actor { assert InGroup(TraderOf, k)(e); }
    }
  }

  /** The unbounded window: as long as the lifetime rollup holds nothing later than `day`,
      it gives the same per-trader figures as the swaps themselves. */
  lemma LifetimeAggsAgree(rows: map<TraderKey, TraderAllTime>, h: seq<Swap>, chain: int, day: int)
    requires AllTimeAgrees(rows, h)
    requires forall e :: e in h && e.chain == chain ==> e.Day() <= day
    ensures LifetimeAggs(rows, chain) == HistoryAggs(h, chain, day, WAll)
  {
    hide HistoryAgg, AllTimeRow, DayBucket, Accepted;
    forall t ensures t in LifetimeTraders(rows, chain) && TraderKey(chain, t) in rows <==> t in HistoryTraders(h, chain, day, WAll) {
      if TraderKey(chain, t) in rows {
        var e :| e in h && Accepted(e) && TraderOf(e) == TraderKey(chain, t);
        assert EventsIn(chain, day, WAll, e.caller)(e);
      }
      if t in HistoryTraders(h, chain, day, WAll) {
        var e :| e in h && EventsIn(chain, day, WAll, e.caller)(e) && e.caller == t;
        assert TraderOf(e) in KeysOf(h, TraderOf) && TraderOf(e) == TraderKey(chain, t);
      }
    }
    forall t | t in LifetimeAggs(rows, chain) ensures LifetimeAggs(rows, chain)[t] == HistoryAgg(h, chain, day, WAll, t) {
      LifetimeAggAgrees(rows, h, chain, day, t);
    }
  }

  // ---------------------------------------------------------------- later events change nothing

  lemma HistoryAggStays(h: seq<Swap>, e: Swap, chain: int, day: int, w: Window, t: string)
    requires e.chain == chain ==> e.Day() > day
    ensures HistoryAgg(h + [e], chain, day, w, t) == HistoryAgg(h, chain, day, w, t)
  {
    hide Accepted, DayBucket, AtBound;
    var p, q := EventsIn(chain, day, w, t), EventsOnFirstDay(chain, day, w, t);
    SumOfAppend(h, e, p, Volume);
    SumOfAppend(h, e, p, One);
    SumOfAppend(h, e, q, Volume);
    SumOfAppend(h, e, q, One);
    ExistsAppend(h, e, (x: Swap) => p(x) && x.actor);
    ExistsAppend(h, e, (x: Swap) => p(x) && !AtBound(w, day, x.Day()));
  }

  lemma HistoryTradersStay(h: seq<Swap>, e: Swap, chain: int, day: int, w: Window)
    requires e.chain == chain ==> e.Day() > day
    ensures HistoryTraders(h + [e], chain, day, w) == HistoryTraders(h, chain, day, w)
  {
    assert forall x :: x in h ==> x in h + [e];
    assert !EventsIn(chain, day, w, e.caller)(e);
  }

  /** A snapshot of a closed day is never made wrong by a later event, or one of another chain. */
  lemma ExpectedRowStays(h: seq<Swap>, e: Swap, k: WindowKey, block: int, updatedAt: int)
    requires e.chain == k.chain ==> e.Day() > k.day
    ensures ExpectedRow(h + [e], k, block, updatedAt) == ExpectedRow(h, k, block, updatedAt)
  {
    hide HistoryTraders, HistoryAgg, RowFrom;
    HistoryTradersStay(h, e, k.chain, k.day, k.window);
    forall t ensures HistoryAgg(h + [e], k.chain, k.day, k.window, t) == HistoryAgg(h, k.chain, k.day, k.window, t) {
      HistoryAggStays(h, e, k.chain, k.day, k.window, t);
    }
    assert HistoryAggs(h + [e], k.chain, k.day, k.window) == HistoryAggs(h, k.chain, k.day, k.window);
  }
}
