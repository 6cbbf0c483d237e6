/** Window snapshots: per-trader aggregation of daily rows and the row built from it. */
module VolumeWindow {
  import opened Ordering
  import opened Sums
  import opened VolumeHistory

  datatype Window = W24h | W7d | W30d | W90d | WAll

  const WINDOW_KEYS: seq<Window> := [W24h, W7d, W30d, W90d, WAll]

  /** Lookback in days; 0 stands for the unbounded window. */
  function WindowDays(w: Window): nat {
    match w
    case W24h => 1
    case W7d => 7
    case W30d => 30
    case W90d => 90
    case WAll => 0
  }

  /** The window of a closed day covers [WindowStartDay, day]; for 24h that range is empty. */
  function WindowStartDay(snapshotDay: int, w: Window): int {
    if w == WAll then 0
    else if WindowDays(w) <= 1 then snapshotDay + SECONDS_PER_DAY
    else snapshotDay - (WindowDays(w) - 2) * SECONDS_PER_DAY
  }

  /** Only windows with a lower bound inside the covered range have a first-day slice. */
  predicate HasFirstDay(w: Window) { WindowDays(w) > 1 }

  datatype DailyRow = DailyRow(chain: int, trader: string, timestamp: int, volume: int, swapCount: int, actor: bool)
  datatype LifetimeRow = LifetimeRow(chain: int, trader: string, volume: int, swapCount: int, actor: bool)

  datatype TraderAgg = TraderAgg(
    trader: string, volume: int, swapCount: int, actor: bool,
    firstDayVolume: int, firstDaySwapCount: int, activeOutside: bool)

  /** The figures of one side of a snapshot: everybody, or unflagged traders only. */
  datatype Side = Side(
    volume: int, swapCount: int, uniqueTraders: int,
    firstDayVolume: int, firstDaySwapCount: int,
    firstDayExclusiveUniqueTraders: int, firstDayExclusiveTraders: seq<string>,
    windowTraders: seq<string>)

  datatype WindowRow = WindowRow(
    chain: int, window: Window, snapshotDay: int, windowStartDay: int,
    organic: Side, all: Side, block: int, updatedAt: int)

  // ---------------------------------------------------------------- aggregation per trader

  /** Rows of the window: those of `trader`, or of anybody. */
  ghost function InWindow(chain: int, day: int, w: Window): DailyRow -> bool {
    (r: DailyRow) => r.chain == chain && WindowStartDay(day, w) <= r.timestamp <= day
  }

  ghost function InWindowOf(chain: int, day: int, w: Window, trader: string): DailyRow -> bool {
    (r: DailyRow) => InWindow(chain, day, w)(r) && r.trader == trader
  }

  ghost function OnFirstDayOf(chain: int, day: int, w: Window, trader: string): DailyRow -> bool {
    (r: DailyRow) => InWindowOf(chain, day, w, trader)(r) && HasFirstDay(w) && r.timestamp == WindowStartDay(day, w)
  }

  function RowVolume(r: DailyRow): int { r.volume }
  function RowSwaps(r: DailyRow): int { r.swapCount }

  /** What one trader's rows of the window come to. */
  ghost predicate IsAggOf(a: TraderAgg, rows: seq<DailyRow>, chain: int, day: int, w: Window, trader: string) {
    && a.trader == trader
    && a.volume == SumOf(rows, InWindowOf(chain, day, w, trader), RowVolume)
    && a.swapCount == SumOf(rows, InWindowOf(chain, day, w, trader), RowSwaps)
    && (a.actor <==> exists r :: r in rows && InWindowOf(chain, day, w, trader)(r) && r.actor)
    && a.firstDayVolume == SumOf(rows, OnFirstDayOf(chain, day, w, trader), RowVolume)
    && a.firstDaySwapCount == SumOf(rows, OnFirstDayOf(chain, day, w, trader), RowSwaps)
    && (a.activeOutside <==>
          !HasFirstDay(w) || exists r :: r in rows && InWindowOf(chain, day, w, trader)(r) && r.timestamp != WindowStartDay(day, w))
  }

  ghost function TradersIn(rows: seq<DailyRow>, chain: int, day: int, w: Window): set<string> {
    set r | r in rows && InWindow(chain, day, w)(r) :: r.trader
  }

  function Names(aggs: seq<TraderAgg>): seq<string> {
    seq(|aggs|, i requires 0 <= i < |aggs| => aggs[i].trader)
  }

  /** One aggregate per trader of the window, in some order. */
  ghost predicate AggregatesOf(aggs: seq<TraderAgg>, rows: seq<DailyRow>, chain: int, day: int, w: Window) {
    && Distinct(Names(aggs))
    && Elements(Names(aggs)) == TradersIn(rows, chain, day, w)
    && forall i :: 0 <= i < |aggs| ==> IsAggOf(aggs[i], rows, chain, day, w, aggs[i].trader)
  }

  function NewAgg(r: DailyRow, w: Window, firstDay: bool): TraderAgg {
    TraderAgg(r.trader, r.volume, r.swapCount, r.actor,
              if firstDay then r.volume else 0, if firstDay then r.swapCount else 0,
              !HasFirstDay(w) || !firstDay)
  }

  function GrownAgg(a: TraderAgg, r: DailyRow, firstDay: bool): TraderAgg {
    a.(volume := a.volume + r.volume, swapCount := a.swapCount + r.swapCount, actor := a.actor || r.actor,
       firstDayVolume := if firstDay then a.firstDayVolume + r.volume else a.firstDayVolume,
       firstDaySwapCount := if firstDay then a.firstDaySwapCount + r.swapCount else a.firstDaySwapCount,
       activeOutside := if firstDay then a.activeOutside else true)
  }

  lemma ExistsAppend<T>(rows: seq<T>, r: T, p: T -> bool)
    ensures (exists x :: x in rows + [r] && p(x)) <==> (exists x :: x in rows && p(x)) || p(r)
  {
    if x :| x in rows && p(x) { assert x in rows + [r]; }
    assert r in rows + [r];
  }

  /** A row of another trader, or outside the window, leaves the aggregate as it is. */
  lemma AggStays(a: TraderAgg, rows: seq<DailyRow>, r: DailyRow, chain: int, day: int, w: Window, trader: string)
    requires IsAggOf(a, rows, chain, day, w, trader) && !InWindowOf(chain, day, w, trader)(r)
    ensures IsAggOf(a, rows + [r], chain, day, w, trader)
  {
    AggSums(rows, r, chain, day, w, trader);
  }

  lemma AggSums(rows: seq<DailyRow>, r: DailyRow, chain: int, day: int, w: Window, trader: string)
    ensures
      var p, q, rows' := InWindowOf(chain, day, w, trader), OnFirstDayOf(chain, day, w, trader), rows + [r];
      && SumOf(rows', p, RowVolume) == SumOf(rows, p, RowVolume) + (if p(r) then r.volume else 0)
      && SumOf(rows', p, RowSwaps) == SumOf(rows, p, RowSwaps) + (if p(r) then r.swapCount else 0)
      && SumOf(rows', q, RowVolume) == SumOf(rows, q, RowVolume) + (if q(r) then r.volume else 0)
      && SumOf(rows', q, RowSwaps) == SumOf(rows, q, RowSwaps) + (if q(r) then r.swapCount else 0)
      && ((exists x :: x in rows' && p(x) && x.actor) <==> (exists x :: x in rows && p(x) && x.actor) || (p(r) && r.actor))
      && ((exists x :: x in rows' && p(x) && x.timestamp != WindowStartDay(day, w)) <==>
            (exists x :: x in rows && p(x) && x.timestamp != WindowStartDay(day, w)) || (p(r) && r.timestamp != WindowStartDay(day, w)))
  {
    hide InWindowOf, OnFirstDayOf, SumOf, WindowStartDay;
    var p, q := InWindowOf(chain, day, w, trader), OnFirstDayOf(chain, day, w, trader);
    SumOfAppend(rows, r, p, RowVolume);
    SumOfAppend(rows, r, p, RowSwaps);
    SumOfAppend(rows, r, q, RowVolume);
    SumOfAppend(rows, r, q, RowSwaps);
    ExistsAppend(rows, r, (x: DailyRow) => p(x) && x.actor);
    ExistsAppend(rows, r, (x: DailyRow) => p(x) && x.timestamp != WindowStartDay(day, w));
  }

  lemma AggGrows(a: TraderAgg, rows: seq<DailyRow>, r: DailyRow, chain: int, day: int, w: Window)
    requires IsAggOf(a, rows, chain, day, w, r.trader) && InWindow(chain, day, w)(r)
    ensures IsAggOf(GrownAgg(a, r, HasFirstDay(w) && r.timestamp == WindowStartDay(day, w)), rows + [r], chain, day, w, r.trader)
  {
    AggSums(rows, r, chain, day, w, r.trader);
  }

  /** A trader who is not in the window yet has nothing in it. */
  lemma NothingYet(rows: seq<DailyRow>, chain: int, day: int, w: Window, trader: string)
    requires trader !in TradersIn(rows, chain, day, w)
    ensures
      var p, q := InWindowOf(chain, day, w, trader), OnFirstDayOf(chain, day, w, trader);
      && SumOf(rows, p, RowVolume) == 0 && SumOf(rows, p, RowSwaps) == 0
      && SumOf(rows, q, RowVolume) == 0 && SumOf(rows, q, RowSwaps) == 0
      && (forall x :: x in rows ==> !p(x))
  {
    hide WindowStartDay, SumOf, HasFirstDay;
    var p, q := InWindowOf(chain, day, w, trader), OnFirstDayOf(chain, day, w, trader);
    forall x | x in rows ensures !p(x) && !q(x) {}
    SumOfNone(rows, p, RowVolume);
    SumOfNone(rows, p, RowSwaps);
    SumOfNone(rows, q, RowVolume);
    SumOfNone(rows, q, RowSwaps);
  }

  lemma AggStarts(rows: seq<DailyRow>, r: DailyRow, chain: int, day: int, w: Window)
    requires InWindow(chain, day, w)(r) && r.trader !in TradersIn(rows, chain, day, w)
    ensures IsAggOf(NewAgg(r, w, HasFirstDay(w) && r.timestamp == WindowStartDay(day, w)), rows + [r], chain, day, w, r.trader)
  {
    hide SumOf, TradersIn, InWindow;
    AggSums(rows, r, chain, day, w, r.trader);
    NothingYet(rows, chain, day, w, r.trader);
  }

  lemma TradersInAppend(rows: seq<DailyRow>, r: DailyRow, chain: int, day: int, w: Window)
    ensures TradersIn(rows + [r], chain, day, w) ==
      TradersIn(rows, chain, day, w) + (if InWindow(chain, day, w)(r) then {r.trader} else {})
  {
    hide InWindow;
    var p := InWindow(chain, day, w);
    var more := TradersIn(rows, chain, day, w) + (if p(r) then {r.trader} else {});
    forall t ensures t in TradersIn(rows + [r], chain, day, w) <==> t in more {
      if t in TradersIn(rows, chain, day, w) {
        var x :| x in rows && p(x) && x.trader == t;
        assert x in rows + [r];
      }
      assert r in rows + [r];
    }
  }

  /** The per-trader map the scan keeps, with its keys in insertion order. */
  ghost predicate ScanState(byTrader: map<string, TraderAgg>, order: seq<string>, rows: seq<DailyRow>, chain: int, day: int, w: Window) {
    && Distinct(order) && Elements(order) == byTrader.Keys == TradersIn(rows, chain, day, w)
    && forall t :: t in byTrader ==> IsAggOf(byTrader[t], rows, chain, day, w, t)
  }

  lemma ScanSkips(byTrader: map<string, TraderAgg>, order: seq<string>, rows: seq<DailyRow>, r: DailyRow, chain: int, day: int, w: Window)
    requires ScanState(byTrader, order, rows, chain, day, w) && !InWindow(chain, day, w)(r)
    ensures ScanState(byTrader, order, rows + [r], chain, day, w)
  {
    hide IsAggOf, TradersIn;
    TradersInAppend(rows, r, chain, day, w);
    forall t | t in byTrader ensures IsAggOf(byTrader[t], rows + [r], chain, day, w, t) {
      AggStays(byTrader[t], rows, r, chain, day, w, t);
    }
  }

  lemma ScanTakes(byTrader: map<string, TraderAgg>, order: seq<string>, rows: seq<DailyRow>, r: DailyRow, chain: int, day: int, w: Window)
    requires ScanState(byTrader, order, rows, chain, day, w) && InWindow(chain, day, w)(r)
    ensures
      var firstDay := HasFirstDay(w) && r.timestamp == WindowStartDay(day, w);
      if r.trader in byTrader
      then ScanState(byTrader[r.trader := GrownAgg(byTrader[r.trader], r, firstDay)], order, rows + [r], chain, day, w)
      else ScanState(byTrader[r.trader := NewAgg(r, w, firstDay)], order + [r.trader], rows + [r], chain, day, w)
  {
    hide IsAggOf, TradersIn, GrownAgg, NewAgg;
    TradersInAppend(rows, r, chain, day, w);
    forall t | t in byTrader && t != r.trader ensures IsAggOf(byTrader[t], rows + [r], chain, day, w, t) {
      AggStays(byTrader[t], rows, r, chain, day, w, t);
    }
    if r.trader in byTrader {
      AggGrows(byTrader[r.trader], rows, r, chain, day, w);
      assert TradersIn(rows + [r], chain, day, w) == TradersIn(rows, chain, day, w);
    } else {
      AggStarts(rows, r, chain, day, w);
      assert Elements(order + [r.trader]) == Elements(order) + {r.trader};
    }
  }

  method AggregateWindow(rows: seq<DailyRow>, chain: int, day: int, w: Window) returns (aggs: seq<TraderAgg>)
    ensures AggregatesOf(aggs, rows, chain, day, w)
  {
    hide IsAggOf, TradersIn, WindowStartDay, InWindow;
    var start := WindowStartDay(day, w);
    var byTrader: map<string, TraderAgg> := map[];
    var order: seq<string> := [];
    assert ScanState(byTrader, order, rows[..0], chain, day, w) by { NothingScanned(chain, day, w); assert rows[..0] == []; }
    for i := 0 to |rows|
      invariant ScanState(byTrader, order, rows[..i], chain, day, w)
    {
      var r := rows[i];
      assert rows[..i + 1] == rows[..i] + [r];
      InWindowMeans(r, chain, day, w);
      if r.chain != chain || r.timestamp < start || r.timestamp > day {
        ScanSkips(byTrader, order, rows[..i], r, chain, day, w);
      } else {
        var firstDay := HasFirstDay(w) && r.timestamp == start;
        ScanTakes(byTrader, order, rows[..i], r, chain, day, w);
        if r.trader in byTrader {
          byTrader := byTrader[r.trader := GrownAgg(byTrader[r.trader], r, firstDay)];
        } else {
          byTrader := byTrader[r.trader := NewAgg(r, w, firstDay)];
          order := order + [r.trader];
        }
      }
    }
    assert rows[..|rows|] == rows;
    aggs := [];
    for i := 0 to |order|
      invariant |aggs| == i
      invariant forall j :: 0 <= j < i ==> order[j] in byTrader && aggs[j] == byTrader[order[j]]
    {
      assert order[i] in Elements(order);
      aggs := aggs + [byTrader[order[i]]];
    }
    assert Names(aggs) == order by {
      forall j | 0 <= j < |order| ensures aggs[j].trader == order[j] { AggTrader(byTrader[order[j]], rows, chain, day, w, order[j]); }
    }
  }

  lemma InWindowMeans(r: DailyRow, chain: int, day: int, w: Window)
    ensures InWindow(chain, day, w)(r) <==> !(r.chain != chain || r.timestamp < WindowStartDay(day, w) || r.timestamp > day)
  {
  }

  lemma NothingScanned(chain: int, day: int, w: Window)
    ensures ScanState(map[], [], [], chain, day, w)
  {
  }

  lemma AggTrader(a: TraderAgg, rows: seq<DailyRow>, chain: int, day: int, w: Window, trader: string)
    requires IsAggOf(a, rows, chain, day, w, trader)
    ensures a.trader == trader
  {
  }

  method AggregatePerWindow(rows: seq<DailyRow>, chain: int, day: int) returns (out: map<Window, seq<TraderAgg>>)
    ensures out.Keys == Elements(WINDOW_KEYS)
    ensures forall w :: w in out ==> AggregatesOf(out[w], rows, chain, day, w)
  {
    hide AggregatesOf;
    out := map[];
    for i := 0 to |WINDOW_KEYS|
      invariant out.Keys == Elements(WINDOW_KEYS[..i])
      invariant forall w :: w in out ==> AggregatesOf(out[w], rows, chain, day, w)
    {
      var aggs := AggregateWindow(rows, chain, day, WINDOW_KEYS[i]);
      out := out[WINDOW_KEYS[i] := aggs];
      assert WINDOW_KEYS[..i + 1] == WINDOW_KEYS[..i] + [WINDOW_KEYS[i]];
    }
  }

  function AllTimeAgg(r: LifetimeRow): TraderAgg {
    TraderAgg(r.trader, r.volume, r.swapCount, r.actor, 0, 0, true)
  }

  function AllTimeToWindowAggregates(rows: seq<LifetimeRow>, chain: int): (aggs: seq<TraderAgg>)
    ensures forall a :: a in aggs <==> exists r :: r in rows && r.chain == chain && a == AllTimeAgg(r)
  {
    if rows == [] then [] else
      assert rows == rows[..|rows| - 1] + [rows[|rows| - 1]];
      AllTimeToWindowAggregates(rows[..|rows| - 1], chain)
      + (if rows[|rows| - 1].chain == chain then [AllTimeAgg(rows[|rows| - 1])] else [])
  }

  // ---------------------------------------------------------------- the snapshot row

  function AggVolume(a: TraderAgg): int { a.volume }
  function AggSwaps(a: TraderAgg): int { a.swapCount }
  function AggFirstVolume(a: TraderAgg): int { a.firstDayVolume }
  function AggFirstSwaps(a: TraderAgg): int { a.firstDaySwapCount }
  function AggOne(a: TraderAgg): int { 1 }

  predicate Everybody(a: TraderAgg) { true }
  predicate Organic(a: TraderAgg) { !a.actor }

  ghost function AggNamed(aggs: seq<TraderAgg>, t: string): TraderAgg
    requires Distinct(Names(aggs)) && t in Names(aggs)
    ensures forall i :: 0 <= i < |aggs| && Names(aggs)[i] == t ==> AggNamed(aggs, t) == aggs[i]
  {
    var i :| 0 <= i < |aggs| && Names(aggs)[i] == t;
    aggs[i]
  }

  /** The per-trader figures as a map. */
  ghost function AggMap(aggs: seq<TraderAgg>): map<string, TraderAgg>
    requires Distinct(Names(aggs))
    ensures AggMap(aggs).Keys == Elements(Names(aggs))
    ensures forall i :: 0 <= i < |aggs| ==> Names(aggs)[i] in AggMap(aggs) && AggMap(aggs)[Names(aggs)[i]] == aggs[i]
  {
    map t | t in Names(aggs) :: AggNamed(aggs, t)
  }

  ghost function Field(aggs: map<string, TraderAgg>, value: TraderAgg -> int): string -> int {
    (t: string) => if t in aggs then value(aggs[t]) else 0
  }

  ghost function Kept(aggs: map<string, TraderAgg>, keep: TraderAgg -> bool): set<string> {
    set t | t in aggs && keep(aggs[t])
  }

  ghost function FirstDayOnly(aggs: map<string, TraderAgg>, keep: TraderAgg -> bool): set<string> {
    set t | t in aggs && keep(aggs[t]) && !aggs[t].activeOutside
  }

  /** One side of the row as sums and sets over the traders it keeps. */
  ghost function SideOf(aggs: map<string, TraderAgg>, keep: TraderAgg -> bool): Side {
    var traders, exclusive := Kept(aggs, keep), FirstDayOnly(aggs, keep);
    Side(
      SumOver(traders, Field(aggs, AggVolume)), SumOver(traders, Field(aggs, AggSwaps)), |traders|,
      SumOver(traders, Field(aggs, AggFirstVolume)), SumOver(traders, Field(aggs, AggFirstSwaps)),
      |exclusive|, SortedList(exclusive), SortedList(traders))
  }

  ghost function RowFrom(aggs: map<string, TraderAgg>, chain: int, w: Window, day: int, block: int, updatedAt: int): WindowRow {
    WindowRow(chain, w, day, WindowStartDay(day, w), SideOf(aggs, Organic), SideOf(aggs, Everybody), block, updatedAt)
  }

  /** The traders of a list prefix that pass a test, in list order. */
  ghost function NamesOf(aggs: seq<TraderAgg>, p: TraderAgg -> bool): seq<string> {
    if aggs == [] then [] else
      NamesOf(aggs[..|aggs| - 1], p) + (if p(aggs[|aggs| - 1]) then [aggs[|aggs| - 1].trader] else [])
  }

  lemma NamesOfAppend(aggs: seq<TraderAgg>, a: TraderAgg, p: TraderAgg -> bool)
    ensures NamesOf(aggs + [a], p) == NamesOf(aggs, p) + (if p(a) then [a.trader] else [])
  {
    assert (aggs + [a])[..|aggs|] == aggs;
  }

  lemma NamesSnoc(aggs: seq<TraderAgg>)
    requires aggs != [] && Distinct(Names(aggs))
    ensures
      var init, a := aggs[..|aggs| - 1], aggs[|aggs| - 1];
      && |Names(init)| == |init| && |Names(aggs)| == |aggs| && Names(aggs) == Names(init) + [a.trader] && Distinct(Names(init)) && a.trader !in Names(init)
      && forall i :: 0 <= i < |init| ==> Names(init)[i] == Names(aggs)[i]
  {
    var init, a := aggs[..|aggs| - 1], aggs[|aggs| - 1];
    assert Names(aggs) == Names(init) + [a.trader];
    assert forall i :: 0 <= i < |init| ==> Names(aggs)[i] == Names(init)[i];
    assert Names(aggs)[|init|] == a.trader;
  }

  /** Dropping the last aggregate drops exactly its trader. */
  lemma AggMapInit(aggs: seq<TraderAgg>)
    requires aggs != [] && Distinct(Names(aggs))
    ensures
      var init, a := aggs[..|aggs| - 1], aggs[|aggs| - 1];
      Distinct(Names(init)) && a.trader !in AggMap(init) && AggMap(aggs) == AggMap(init)[a.trader := a]
  {
    var init, a := aggs[..|aggs| - 1], aggs[|aggs| - 1];
    hide AggMap, Names, Elements, Distinct;
    NamesSnoc(aggs);
    DistinctAppend(Names(init), a.trader);
    InElements(a.trader, Names(init));
    assert Names(aggs)[|init|] == a.trader;
    forall t | t in AggMap(init) ensures AggMap(init)[t] == AggMap(aggs)[t] { SameNamed(init, aggs, t); }
    forall t ensures t in AggMap(aggs) <==> t in AggMap(init) || t == a.trader {}
  }

  lemma SameNamed(init: seq<TraderAgg>, aggs: seq<TraderAgg>, t: string)
    requires Distinct(Names(init)) && Distinct(Names(aggs)) && t in AggMap(init) && init <= aggs
    requires |Names(init)| == |init| && |Names(aggs)| == |aggs| && Names(init) <= Names(aggs)
    ensures t in AggMap(aggs) && AggMap(init)[t] == AggMap(aggs)[t]
  {
    hide AggMap, Names, Elements, Distinct;
    InElements(t, Names(init));
    var i :| 0 <= i < |init| && Names(init)[i] == t;
    assert Names(aggs)[i] == t && init[i] == aggs[i];
  }

  lemma NoNames()
    ensures Distinct<string>([]) && Elements<string>([]) == {} && AggMap([]).Keys == {}
  {
  }

  lemma {:induction false} NamesOfMembers(aggs: seq<TraderAgg>, p: TraderAgg -> bool)
    requires Distinct(Names(aggs))
    ensures Distinct(NamesOf(aggs, p))
    ensures Elements(NamesOf(aggs, p)) == Kept(AggMap(aggs), p)
    ensures |NamesOf(aggs, p)| == SumOf(aggs, p, AggOne)
  {
    hide AggMap, Names, Distinct, Elements;
    if aggs == [] {
      NoNames();
    } else {
      var init, a := aggs[..|aggs| - 1], aggs[|aggs| - 1];
      AggMapInit(aggs);
      NamesOfMembers(init, p);
      DistinctAppend(NamesOf(init, p), a.trader);
      if !p(a) { assert NamesOf(aggs, p) == NamesOf(init, p); }
      assert a.trader in NamesOf(init, p) <==> a.trader in Kept(AggMap(init), p) by { InElements(a.trader, NamesOf(init, p)); }
      assert Kept(AggMap(aggs), p) == Kept(AggMap(init), p) + (if p(a) then {a.trader} else {});
    }
  }

  /** A conditional sum over the list is a sum over the traders that meet the condition. */
  lemma {:induction false} ListSum(aggs: seq<TraderAgg>, p: TraderAgg -> bool, value: TraderAgg -> int)
    requires Distinct(Names(aggs))
    ensures SumOf(aggs, p, value) == SumOver(Kept(AggMap(aggs), p), Field(AggMap(aggs), value))
  {
    var all := AggMap(aggs);
    var traders := Kept(all, p);
    forall t | t in traders ensures Field(all, value)(t) == SumOf(aggs, AtKey(p, (a: TraderAgg) => a.trader, t), value) {
      var i :| 0 <= i < |aggs| && Names(aggs)[i] == t;
      assert forall j :: 0 <= j < |aggs| ==> Names(aggs)[j] == aggs[j].trader;
      OneOfList(aggs, i, AtKey(p, (a: TraderAgg) => a.trader, t), value);
    }
    SumOfKeys(aggs, p, (a: TraderAgg) => a.trader, traders, value, Field(all, value));
    forall a | a in aggs ensures p(a) == InKeys(p, (a: TraderAgg) => a.trader, traders)(a) {
      var i :| 0 <= i < |aggs| && aggs[i] == a;
      assert Names(aggs)[i] == a.trader;
      assert all[Names(aggs)[i]] == a;
    }
    SumOfSame(aggs, p, InKeys(p, (a: TraderAgg) => a.trader, traders), value);
  }

  lemma OneOfList(aggs: seq<TraderAgg>, i: nat, p: TraderAgg -> bool, value: TraderAgg -> int)
    requires i < |aggs| && p(aggs[i]) && forall j :: 0 <= j < |aggs| && j != i ==> !p(aggs[j])
    ensures SumOf(aggs, p, value) == value(aggs[i])
  {
    var a, b := aggs[..i], aggs[i + 1..];
    assert aggs == a + [aggs[i]] + b;
    SumOfConcat(a + [aggs[i]], b, p, value);
    SumOfAppend(a, aggs[i], p, value);
    forall x | x in a ensures !p(x) { var j :| 0 <= j < |a| && a[j] == x; assert aggs[j] == x; }
    forall x | x in b ensures !p(x) { var j :| 0 <= j < |b| && b[j] == x; assert aggs[i + 1 + j] == x; }
    SumOfNone(a, p, value);
    SumOfNone(b, p, value);
  }

  ghost function KeepExclusive(keep: TraderAgg -> bool): TraderAgg -> bool {
    (a: TraderAgg) => keep(a) && !a.activeOutside
  }

  /** The running totals of one side after scanning `aggs`. */
  ghost predicate Totals(s: Side, aggs: seq<TraderAgg>, keep: TraderAgg -> bool) {
    && s.volume == SumOf(aggs, keep, AggVolume) && s.swapCount == SumOf(aggs, keep, AggSwaps)
    && s.uniqueTraders == SumOf(aggs, keep, AggOne)
    && s.firstDayVolume == SumOf(aggs, keep, AggFirstVolume) && s.firstDaySwapCount == SumOf(aggs, keep, AggFirstSwaps)
    && s.firstDayExclusiveUniqueTraders == SumOf(aggs, KeepExclusive(keep), AggOne)
    && s.firstDayExclusiveTraders == NamesOf(aggs, KeepExclusive(keep))
    && s.windowTraders == NamesOf(aggs, keep)
  }

  function Counted(s: Side, a: TraderAgg): Side {
    Side(
      s.volume + a.volume, s.swapCount + a.swapCount, s.uniqueTraders + 1,
      s.firstDayVolume + a.firstDayVolume, s.firstDaySwapCount + a.firstDaySwapCount,
      s.firstDayExclusiveUniqueTraders + (if a.activeOutside then 0 else 1),
      s.firstDayExclusiveTraders + (if a.activeOutside then [] else [a.trader]),
      s.windowTraders + [AsAddress(a.trader)])
  }

  lemma TotalsStep(s: Side, aggs: seq<TraderAgg>, a: TraderAgg, keep: TraderAgg -> bool)
    requires Totals(s, aggs, keep) && AsAddress(a.trader) == a.trader
    ensures Totals(if keep(a) then Counted(s, a) else s, aggs + [a], keep)
  {
    hide SumOf, NamesOf;
    SumOfAppend(aggs, a, keep, AggVolume);
    SumOfAppend(aggs, a, keep, AggSwaps);
    SumOfAppend(aggs, a, keep, AggOne);
    SumOfAppend(aggs, a, keep, AggFirstVolume);
    SumOfAppend(aggs, a, keep, AggFirstSwaps);
    SumOfAppend(aggs, a, KeepExclusive(keep), AggOne);
    NamesOfAppend(aggs, a, KeepExclusive(keep));
    NamesOfAppend(aggs, a, keep);
  }

  function SortedSide(s: Side): Side {
    s.(firstDayExclusiveTraders := Sort(s.firstDayExclusiveTraders, StringLeq),
       windowTraders := Sort(s.windowTraders, StringLeq))
  }

  lemma NamesSorted(aggs: seq<TraderAgg>, p: TraderAgg -> bool, members: set<string>)
    requires Distinct(Names(aggs)) && members == Kept(AggMap(aggs), p)
    ensures Sort(NamesOf(aggs, p), StringLeq) == SortedList(members)
    ensures SumOf(aggs, p, AggOne) == |members|
  {
    hide SortedList, AggMap, SumOf;
    NamesOfMembers(aggs, p);
    SortOfDistinct(NamesOf(aggs, p));
    DistinctMultiset(NamesOf(aggs, p));
    ListsUnique(Sort(NamesOf(aggs, p), StringLeq), SortedList(members), members);
  }

  /** The sorted running totals are the sums and sets over the kept traders. */
  lemma TotalsMean(s: Side, aggs: seq<TraderAgg>, keep: TraderAgg -> bool)
    requires Distinct(Names(aggs)) && Totals(s, aggs, keep)
    ensures SortedSide(s) == SideOf(AggMap(aggs), keep)
  {
    hide SumOf, SumOver, NamesOf, SortedList, AggMap, Field;
    ListSum(aggs, keep, AggVolume);
    ListSum(aggs, keep, AggSwaps);
    ListSum(aggs, keep, AggFirstVolume);
    ListSum(aggs, keep, AggFirstSwaps);
    NamesSorted(aggs, keep, Kept(AggMap(aggs), keep));
    assert FirstDayOnly(AggMap(aggs), keep) == Kept(AggMap(aggs), KeepExclusive(keep));
    NamesSorted(aggs, KeepExclusive(keep), FirstDayOnly(AggMap(aggs), keep));
  }

  method BuildVolumeWindowSnapshot(aggs: seq<TraderAgg>, chain: int, w: Window, day: int, startDay: int, block: int, updatedAt: int)
    returns (row: WindowRow)
    requires Distinct(Names(aggs)) && startDay == WindowStartDay(day, w)
    requires forall a :: a in aggs ==> AsAddress(a.trader) == a.trader
    ensures row == RowFrom(AggMap(aggs), chain, w, day, block, updatedAt)
  {
    hide Totals, SideOf, AggMap, Names, AsAddress, SortedSide;
    var organic := Side(0, 0, 0, 0, 0, 0, [], []);
    var all := organic;
    assert aggs[..0] == [];
    NothingCounted(organic, Organic);
    NothingCounted(all, Everybody);
    for i := 0 to |aggs|
      invariant Totals(organic, aggs[..i], Organic)
      invariant Totals(all, aggs[..i], Everybody)
    {
      assert aggs[..i + 1] == aggs[..i] + [aggs[i]];
      TotalsStep(all, aggs[..i], aggs[i], Everybody);
      TotalsStep(organic, aggs[..i], aggs[i], Organic);
      all := Counted(all, aggs[i]);
      if !aggs[i].actor { organic := Counted(organic, aggs[i]); }
    }
    assert aggs[..|aggs|] == aggs;
    TotalsMean(organic, aggs, Organic);
    TotalsMean(all, aggs, Everybody);
    row := WindowRow(chain, w, day, startDay, SortedSide(organic), SortedSide(all), block, updatedAt);
  }

  lemma NothingCounted(s: Side, keep: TraderAgg -> bool)
    requires s == Side(0, 0, 0, 0, 0, 0, [], [])
    ensures Totals(s, [], keep)
  {
  }
}
