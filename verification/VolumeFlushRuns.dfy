/** The window rows after any run of events. */
module VolumeFlushRuns {
  import opened VolumeHistory
  import opened VolumeRollups
  import opened VolumeRuns
  import opened VolumeWindow
  import opened VolumeFlush
  import opened VolumeFlushProofs

  lemma {:induction false} FlushDaysAre(windows: map<WindowKey, WindowRow>, t: Tables, chain: int, days: seq<int>, block: int, updatedAt: int)
    ensures forall k :: k in FlushDays(windows, t, chain, days, block, updatedAt) <==> k in windows || (k.chain == chain && k.day in days)
    ensures forall k :: k in FlushDays(windows, t, chain, days, block, updatedAt) ==>
      FlushDays(windows, t, chain, days, block, updatedAt)[k] ==
        if k.chain == chain && k.day in days then FlushedRow(t, k, block, updatedAt) else windows[k]
  {
    hide FlushedRow;
    if days != [] {
      var init, day := days[..|days| - 1], days[|days| - 1];
      assert days == init + [day];
      FlushDaysAre(windows, t, chain, init, block, updatedAt);
      forall k ensures k in DayKeys(chain, day) <==> k.chain == chain && k.day == day { KeysOfDay(k, chain, day); }
    }
  }

  lemma KeysOfDay(k: WindowKey, chain: int, day: int)
    ensures k in DayKeys(chain, day) <==> k.chain == chain && k.day == day
  {
    assert k == WindowKey(k.chain, k.window, k.day);
    assert k.window == W24h || k.window == W7d || k.window == W30d || k.window == W90d || k.window == WAll;
  }

  ghost function Accepteds(h: seq<Event>): seq<Swap> { AcceptedOf(SwapsOf(h)) }

  lemma AcceptedsAppend(h: seq<Event>, x: Event)
    ensures SwapsOf(h + [x]) == SwapsOf(h) + (if x.PoolSwap? then [x.swap] else [])
    ensures Accepteds(h + [x]) == Accepteds(h) + (if x.PoolSwap? && Accepted(x.swap) then [x.swap] else [])
  {
    hide AcceptedOf, TablesOf, TablesAfter;
    assert (h + [x])[..|h|] == h;
    if x.PoolSwap? { AcceptedOfAppend(SwapsOf(h), x.swap); } else { assert SwapsOf(h + [x]) == SwapsOf(h); }
  }

  /** The flush only reads the rollups: over a run they are what the swaps alone make them. */
  lemma {:induction false} FlushingKeepsTables(h: seq<Event>)
    ensures StoreOf(h).tables == TablesOf(SwapsOf(h))
  {
    hide DailyTablesAfter, PutAllTime, FlushDays, CursorsAfter, AcceptedOf;
    if h != [] {
      var init, x := h[..|h| - 1], h[|h| - 1];
      FlushingKeepsTables(init);
      if x.PoolSwap? {
        AcceptedOfAppend(SwapsOf(init), x.swap);
      } else {
        assert SwapsOf(h) == SwapsOf(init);
      }
    }
  }

  /** `e` is the first pool swap of the chain on a later day than `k.day`. */
  ghost predicate Closes(h: seq<Event>, k: WindowKey, e: Swap) {
    exists i :: 0 <= i < |h| && h[i] == PoolSwap(e) && e.chain == k.chain && e.Day() > k.day
      && forall j :: 0 <= j < i && h[j].PoolSwap? && h[j].swap.chain == k.chain ==> h[j].swap.Day() <= k.day
  }

  lemma ClosesStays(h: seq<Event>, x: Event, k: WindowKey, e: Swap)
    requires Closes(h, k, e)
    ensures Closes(h + [x], k, e)
  {
    hide DayBucket;
    var i :| 0 <= i < |h| && h[i] == PoolSwap(e) && e.chain == k.chain && e.Day() > k.day
      && forall j :: 0 <= j < i && h[j].PoolSwap? && h[j].swap.chain == k.chain ==> h[j].swap.Day() <= k.day;
    assert (h + [x])[i] == PoolSwap(e);
  }

  lemma ClosesNew(h: seq<Event>, k: WindowKey, e: Swap)
    requires e.chain == k.chain && e.Day() > k.day
    requires forall x :: x in h && x.PoolSwap? && x.swap.chain == k.chain ==> x.swap.Day() <= k.day
    ensures Closes(h + [PoolSwap(e)], k, e)
  {
    hide DayBucket;
    assert (h + [PoolSwap(e)])[|h|] == PoolSwap(e);
  }

  lemma {:induction false} LatestIsLatest(h: seq<Event>, chain: int)
    ensures forall x :: x in h && x.PoolSwap? && x.swap.chain == chain ==> x.swap.Day() <= LatestDay(h, chain, Pools)
    ensures LatestDay(h, chain, Pools) == 0 || exists x :: x in h && x.PoolSwap? && x.swap.chain == chain && x.Day() == LatestDay(h, chain, Pools)
  {
    hide DayBucket;
    if h != [] {
      var init, x := h[..|h| - 1], h[|h| - 1];
      assert h == init + [x];
      LatestIsLatest(init, chain);
    }
  }

  lemma {:induction false} AcceptedsAreEvents(h: seq<Event>)
    ensures forall e :: e in Accepteds(h) ==> PoolSwap(e) in h
  {
    if h != [] {
      var init, x := h[..|h| - 1], h[|h| - 1];
      assert h == init + [x];
      AcceptedsAreEvents(init);
      AcceptedsAppend(init, x);
    }
  }

  ghost predicate RowRight(row: WindowRow, h: seq<Event>, k: WindowKey) {
    exists e :: Closes(h, k, e) && row == ExpectedRow(Accepteds(h), k, e.block, e.timestamp)
  }

  ghost predicate WindowsRight(windows: map<WindowKey, WindowRow>, h: seq<Event>) {
    && (forall k :: k in windows <==> k.day in FlushesOf(h, k.chain, Pools))
    && (forall k :: k in windows ==> RowRight(windows[k], h, k))
  }

  lemma RowStays(row: WindowRow, h: seq<Event>, x: Event, k: WindowKey)
    requires RowRight(row, h, k)
    requires x.PoolSwap? && x.swap.chain == k.chain ==> x.swap.Day() > k.day
    ensures RowRight(row, h + [x], k)
  {
    hide Closes, ExpectedRow, Accepteds, DayBucket, Accepted;
    var e :| Closes(h, k, e) && row == ExpectedRow(Accepteds(h), k, e.block, e.timestamp);
    ClosesStays(h, x, k, e);
    AcceptedsAppend(h, x);
    if x.PoolSwap? && Accepted(x.swap) {
      ExpectedRowStays(Accepteds(h), x.swap, k, e.block, e.timestamp);
    } else {
      assert Accepteds(h + [x]) == Accepteds(h);
    }
  }

  /** The tables the flush of event `e` reads. */
  ghost function TablesAtFlush(t: Tables, e: Swap): Tables {
    if Accepted(e) then DailyTablesAfter(t, e) else t
  }

  lemma TablesAtFlushAgree(h: seq<Event>, e: Swap)
    ensures
      var t := TablesAtFlush(TablesOf(SwapsOf(h)), e);
      TraderDaysAgree(t.traderDays, Accepteds(h + [PoolSwap(e)])) && AllTimeAgrees(t.allTime, Accepteds(h))
  {
    hide TraderDaysAgree, AllTimeAgrees, TraderPoolDaysAgree, PoolDaysAgree, AggDaysAgree, AggMarkersAgree, KeysOf,
      PutAllTime, PutTraderDay, PutAggDay, PutPoolDay, PutTraderPoolDay, PutAggMarker, PoolCorrectionsOf, AggCorrectionsOf, ActorAfter, AcceptedOf;
    TablesAgree(SwapsOf(h));
    TablesAgree(SwapsOf(h + [PoolSwap(e)]));
    AcceptedsAppend(h, PoolSwap(e));
    AcceptedOfAppend(SwapsOf(h), e);
    if !Accepted(e) { assert Accepteds(h + [PoolSwap(e)]) == Accepteds(h); }
  }

  lemma NewRow(h: seq<Event>, e: Swap, k: WindowKey)
    requires e.chain == k.chain && LatestDay(h, k.chain, Pools) <= k.day < e.Day()
    ensures RowRight(FlushedRow(TablesAtFlush(TablesOf(SwapsOf(h)), e), k, e.block, e.timestamp), h + [PoolSwap(e)], k)
  {
    hide Closes, DayBucket, Accepted, AcceptedOf, TablesOf, TablesAtFlush, RowFrom, TraderDaysAgree, AllTimeAgrees,
      LifetimeAggs, DailyAggs, HistoryAggs, LatestDay;
    var t := TablesAtFlush(TablesOf(SwapsOf(h)), e);
    LatestIsLatest(h, k.chain);
    AcceptedsAreEvents(h);
    ClosesNew(h, k, e);
    TablesAtFlushAgree(h, e);
    AcceptedsAppend(h, PoolSwap(e));
    RowShowsStart(WindowAggs(t, k.chain, k.day, k.window), k.chain, k.window, k.day, e.block, e.timestamp);
    if k.window == WAll {
      forall x | x in Accepteds(h) && x.chain == k.chain ensures x.Day() <= k.day { assert PoolSwap(x) in h; }
      LifetimeAggsAgree(t.allTime, Accepteds(h), k.chain, k.day);
      assert FlushedRow(t, k, e.block, e.timestamp) == ExpectedRow(Accepteds(h), k, e.block, e.timestamp);
      if Accepted(e) { ExpectedRowStays(Accepteds(h), e, k, e.block, e.timestamp); }
      else { assert Accepteds(h + [PoolSwap(e)]) == Accepteds(h); }
    } else {
      DailyAggsAgree(t.traderDays, Accepteds(h + [PoolSwap(e)]), k.chain, k.day, k.window);
    }
  }

  /** Closed days start no earlier than the latest day already seen, and end before today. */
  lemma ClosedDaysRange(h: seq<Event>, chain: int, today: nat)
    requires CursorIs(h, chain, Pools) && today % SECONDS_PER_DAY == 0
    ensures forall d :: d in ClosedDays(Cursor(StoreOf(h).cursors, chain, Pools), today) ==> LatestDay(h, chain, Pools) <= d < today
    ensures forall d :: d in FlushesOf(h, chain, Pools) ==> d < LatestDay(h, chain, Pools)
  {
    hide DaysFrom, StoreOf, FlushesOf, FirstDay, LatestDay, Cursor;
    var last := Cursor(StoreOf(h).cursors, chain, Pools);
    DaysFromMembers(if last == 0 then today - SECONDS_PER_DAY else last + SECONDS_PER_DAY, today - SECONDS_PER_DAY);
    DaysFromMembers(FirstDay(h, chain, Pools) - SECONDS_PER_DAY, LatestDay(h, chain, Pools) - SECONDS_PER_DAY);
  }

  lemma LatestBefore(h: seq<Event>, x: Event)
    requires Chronological(h + [x]) && x.PoolSwap?
    ensures LatestDay(h, x.swap.chain, Pools) <= x.swap.Day()
  {
    hide DayBucket, Accepteds;
    var chain := x.swap.chain;
    LatestIsLatest(h, chain);
    if LatestDay(h, chain, Pools) != 0 {
      var y :| y in h && y.PoolSwap? && y.swap.chain == chain && y.Day() == LatestDay(h, chain, Pools);
      var i :| 0 <= i < |h| && h[i] == y;
      assert (h + [x])[i] == y && (h + [x])[|h|] == x;
      DayMonotone(y.Time(), x.Time());
    }
  }

  lemma FlushesAppend(h: seq<Event>, x: Event, chain: int, v: Venue)
    ensures FlushesOf(h + [x], chain, v) == FlushesOf(h, chain, v) +
      (if x.Chain() == chain && x.On() == v then ClosedDays(Cursor(StoreOf(h).cursors, chain, v), x.Day()) else [])
    ensures StoreOf(h + [x]) == After(StoreOf(h), x)
  {
    assert (h + [x])[..|h|] == h;
  }

  ghost function ClosedBy(h: seq<Event>, e: Swap): seq<int> {
    ClosedDays(Cursor(StoreOf(h).cursors, e.chain, Pools), e.Day())
  }

  /** The windows after a swap: those before it, with the closed days' rows. */
  lemma SwapWindows(h: seq<Event>, e: Swap)
    ensures
      var s, after := StoreOf(h), StoreOf(h + [PoolSwap(e)]).windows;
      && (forall k :: k in after <==> k in s.windows || (k.chain == e.chain && k.day in ClosedBy(h, e)))
      && (forall k :: k in after ==>
            after[k] == if k.chain == e.chain && k.day in ClosedBy(h, e) then FlushedRow(TablesAtFlush(s.tables, e), k, e.block, e.timestamp) else s.windows[k])
  {
    hide FlushDays, FlushedRow, ClosedDays, Cursor, CursorsAfter, DailyTablesAfter, PutAllTime, Accepted, DayBucket;
    FlushesAppend(h, PoolSwap(e), e.chain, Pools);
    FlushDaysAre(StoreOf(h).windows, TablesAtFlush(StoreOf(h).tables, e), e.chain, ClosedBy(h, e), e.block, e.timestamp);
  }

  /** The days the swap closes, and those flushed before, against the latest day so far. */
  lemma SwapDays(h: seq<Event>, e: Swap)
    requires Chronological(h + [PoolSwap(e)])
    ensures forall d :: d in ClosedBy(h, e) ==> LatestDay(h, e.chain, Pools) <= d < e.Day()
    ensures forall d :: d in FlushesOf(h, e.chain, Pools) ==> d < LatestDay(h, e.chain, Pools) <= e.Day()
  {
    hide ClosedDays, Cursor, LatestDay, FlushesOf, DayBucket, Chronological, StoreOf;
    CursorOnRuns(h, e.chain, Pools);
    DayAligned(e.timestamp);
    ClosedDaysRange(h, e.chain, e.Day());
    LatestBefore(h, PoolSwap(e));
  }

  lemma SwapRow(h: seq<Event>, e: Swap, k: WindowKey)
    requires Chronological(h + [PoolSwap(e)]) && WindowsRight(StoreOf(h).windows, h) && k in StoreOf(h + [PoolSwap(e)]).windows
    ensures RowRight(StoreOf(h + [PoolSwap(e)]).windows[k], h + [PoolSwap(e)], k)
  {
    hide RowRight, StoreOf, DayBucket, FlushedRow, ClosedBy, LatestDay, FlushesOf, TablesAtFlush, Chronological;
    SwapWindows(h, e);
    SwapDays(h, e);
    FlushingKeepsTables(h);
    if k.chain == e.chain && k.day in ClosedBy(h, e) {
      NewRow(h, e, k);
    } else {
      RowStays(StoreOf(h).windows[k], h, PoolSwap(e), k);
    }
  }

  /** One key after the swap: flushed before, or closed by it. */
  lemma SwapKey(h: seq<Event>, e: Swap, k: WindowKey)
    requires k in StoreOf(h).windows <==> k.day in FlushesOf(h, k.chain, Pools)
    ensures k in StoreOf(h + [PoolSwap(e)]).windows <==> k.day in FlushesOf(h + [PoolSwap(e)], k.chain, Pools)
  {
    hide StoreOf, DayBucket, FlushesOf, ClosedDays, Cursor;
    SwapWindows(h, e);
    FlushesAppend(h, PoolSwap(e), k.chain, Pools);
  }

  lemma SwapStep(h: seq<Event>, e: Swap)
    requires Chronological(h + [PoolSwap(e)]) && WindowsRight(StoreOf(h).windows, h)
    ensures WindowsRight(StoreOf(h + [PoolSwap(e)]).windows, h + [PoolSwap(e)])
  {
    hide RowRight, StoreOf, FlushesOf, Chronological;
    var after := StoreOf(h + [PoolSwap(e)]).windows;
    forall k ensures k in after <==> k.day in FlushesOf(h + [PoolSwap(e)], k.chain, Pools) { SwapKey(h, e, k); }
    forall k | k in after ensures RowRight(after[k], h + [PoolSwap(e)], k) { SwapRow(h, e, k); }
  }

  /** On every run in which time does not run backwards, the rows written are one per window for
      every flushed day, and each is still what a recomputation from all swaps gives. */
  lemma {:induction false} WindowsAreRecomputed(h: seq<Event>)
    requires Chronological(h)
    ensures WindowsRight(StoreOf(h).windows, h)
  {
    hide RowRight, DayBucket, AfterSwap, Cursor, CursorsAfter, SwapsOf;
    if h != [] {
      var init, x := h[..|h| - 1], h[|h| - 1];
      assert h == init + [x];
      WindowsAreRecomputed(init);
      if x.PoolSwap? {
        SwapStep(init, x.swap);
      } else {
        var windows := StoreOf(init).windows;
        FlushesAppend(init, x, 0, Pools);
        assert StoreOf(h).windows == windows;
        forall k ensures k in windows <==> k.day in FlushesOf(h, k.chain, Pools) { FlushesAppend(init, x, k.chain, Pools); }
        forall k | k in windows ensures RowRight(windows[k], h, k) { RowStays(windows[k], init, x, k); }
      }
    }
  }
}
