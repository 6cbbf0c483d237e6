/** The heartbeat flush: each event first closes the days since the chain's cursor, writing
    one row per window for every closed day. Pool and broker swaps share one cursor row. */
module VolumeFlush {
  import opened Outcomes
  import opened Sums
  import opened VolumeHistory
  import opened VolumeRollups
  import opened VolumeWindow

  datatype ChainState = ChainState(lastFlushedDay: int, lastFlushedDayBroker: int, updatedAt: int)
  datatype WindowKey = WindowKey(chain: int, window: Window, day: int)

  datatype Store = Store(tables: Tables, cursors: map<int, ChainState>, windows: map<WindowKey, WindowRow>)

  const NEW_CHAIN := ChainState(0, 0, 0)
  const EMPTY_STORE := Store(NO_TABLES, map[], map[])

  datatype Venue = Pools | Brokers

  function Last(s: ChainState, v: Venue): int {
    match v
    case Pools => s.lastFlushedDay
    case Brokers => s.lastFlushedDayBroker
  }

  function Cursor(cursors: map<int, ChainState>, chain: int, v: Venue): int {
    Last(OrElse(Lookup(cursors, chain), NEW_CHAIN), v)
  }

  // ---------------------------------------------------------------- aggregates from the tables

  function DailyRowOf(k: TraderDayKey, row: TraderDay): DailyRow {
    DailyRow(k.chain, k.trader, k.day, row.volume, row.swapCount, row.actor)
  }

  ghost function DailyAt(rows: map<TraderDayKey, TraderDay>): TraderDayKey -> DailyRow {
    (k: TraderDayKey) => if k in rows then DailyRowOf(k, rows[k]) else DailyRow(k.chain, k.trader, k.day, 0, 0, false)
  }

  ghost function DaysThat(rows: map<TraderDayKey, TraderDay>, p: DailyRow -> bool): set<TraderDayKey> {
    set k | k in rows && p(DailyAt(rows)(k))
  }

  ghost function Of<K, T>(at: K -> T, value: T -> int): K -> int {
    (k: K) => value(at(k))
  }

  ghost function DailyAgg(rows: map<TraderDayKey, TraderDay>, chain: int, day: int, w: Window, trader: string): TraderAgg {
    var days := DaysThat(rows, InWindowOf(chain, day, w, trader));
    var first := DaysThat(rows, OnFirstDayOf(chain, day, w, trader));
    TraderAgg(
      trader,
      SumOver(days, Of(DailyAt(rows), RowVolume)), SumOver(days, Of(DailyAt(rows), RowSwaps)),
      exists k :: k in days && rows[k].actor,
      SumOver(first, Of(DailyAt(rows), RowVolume)), SumOver(first, Of(DailyAt(rows), RowSwaps)),
      !HasFirstDay(w) || exists k :: k in days && k.day != WindowStartDay(day, w))
  }

  ghost function DailyTraders(rows: map<TraderDayKey, TraderDay>, chain: int, day: int, w: Window): set<string> {
    set k | k in DaysThat(rows, InWindow(chain, day, w)) :: k.trader
  }

  ghost function DailyAggs(rows: map<TraderDayKey, TraderDay>, chain: int, day: int, w: Window): map<string, TraderAgg> {
    map t | t in DailyTraders(rows, chain, day, w) :: DailyAgg(rows, chain, day, w, t)
  }

  ghost function LifetimeTraders(rows: map<TraderKey, TraderAllTime>, chain: int): set<string> {
    set k | k in rows && k.chain == chain :: k.trader
  }

  ghost function LifetimeAggs(rows: map<TraderKey, TraderAllTime>, chain: int): map<string, TraderAgg> {
    map t | t in LifetimeTraders(rows, chain) && TraderKey(chain, t) in rows ::
      var row := rows[TraderKey(chain, t)];
      TraderAgg(t, row.volume, row.swapCount, row.actor, 0, 0, true)
  }

  /** Rolling windows read the daily rows; the unbounded one reads the lifetime rollup. */
  ghost function WindowAggs(t: Tables, chain: int, day: int, w: Window): map<string, TraderAgg> {
    if w == WAll then LifetimeAggs(t.allTime, chain) else DailyAggs(t.traderDays, chain, day, w)
  }

  ghost function FlushedRow(t: Tables, k: WindowKey, block: int, updatedAt: int): WindowRow {
    RowFrom(WindowAggs(t, k.chain, k.day, k.window), k.chain, k.window, k.day, block, updatedAt)
  }

  // ---------------------------------------------------------------- the flush

  function DayKeys(chain: int, day: int): set<WindowKey> {
    {WindowKey(chain, W24h, day), WindowKey(chain, W7d, day), WindowKey(chain, W30d, day),
     WindowKey(chain, W90d, day), WindowKey(chain, WAll, day)}
  }

  ghost function FlushDay(windows: map<WindowKey, WindowRow>, t: Tables, chain: int, day: int, block: int, updatedAt: int): map<WindowKey, WindowRow> {
    map k | k in windows.Keys + DayKeys(chain, day) ::
      if k in DayKeys(chain, day) then FlushedRow(t, k, block, updatedAt) else windows[k]
  }

  /** The days first, first + 1 day, ... up to last. */
  function DaysFrom(first: int, last: int): seq<int>
    decreases last - first
  {
    if first > last then [] else [first] + DaysFrom(first + SECONDS_PER_DAY, last)
  }

  ghost function FlushDays(windows: map<WindowKey, WindowRow>, t: Tables, chain: int, days: seq<int>, block: int, updatedAt: int): map<WindowKey, WindowRow> {
    if days == [] then windows
    else FlushDay(FlushDays(windows, t, chain, days[..|days| - 1], block, updatedAt), t, chain, days[|days| - 1], block, updatedAt)
  }

  /** The days an event on `today` closes: only yesterday at first, later everything since the cursor. */
  function ClosedDays(last: int, today: int): seq<int> {
    var lastClosed := today - SECONDS_PER_DAY;
    if last >= lastClosed then []
    else DaysFrom(if last == 0 then lastClosed else last + SECONDS_PER_DAY, lastClosed)
  }

  function MovedCursor(existing: Option<ChainState>, v: Venue, day: int, timestamp: int): ChainState {
    var state := OrElse(existing, NEW_CHAIN);
    match v
    case Pools => ChainState(day, state.lastFlushedDayBroker, timestamp)
    case Brokers => ChainState(state.lastFlushedDay, day, timestamp)
  }

  function CursorsAfter(cursors: map<int, ChainState>, chain: int, v: Venue, timestamp: nat): map<int, ChainState> {
    var lastClosed := DayBucket(timestamp) - SECONDS_PER_DAY;
    if Cursor(cursors, chain, v) >= lastClosed then cursors
    else cursors[chain := MovedCursor(Lookup(cursors, chain), v, lastClosed, timestamp)]
  }

  ghost function Heartbeat(s: Store, chain: int, timestamp: nat, block: int): Store {
    Store(s.tables, CursorsAfter(s.cursors, chain, Pools, timestamp),
          FlushDays(s.windows, s.tables, chain, ClosedDays(Cursor(s.cursors, chain, Pools), DayBucket(timestamp)), block, timestamp))
  }

  // ---------------------------------------------------------------- runs

  /** Broker swaps matter here only for what they do to the shared cursor row. */
  datatype Event = PoolSwap(swap: Swap) | BrokerSwap(brokerChain: int, brokerTime: nat)
  {
    function Chain(): int { if PoolSwap? then swap.chain else brokerChain }
    function Time(): nat { if PoolSwap? then swap.timestamp else brokerTime }
    function On(): Venue { if PoolSwap? then Pools else Brokers }
    function Day(): nat { DayBucket(Time()) }
  }

  /** One pool swap: the daily tables, then the flush, and only then the lifetime rollup. */
  ghost function AfterSwap(s: Store, e: Swap): Store {
    if !Accepted(e) then Heartbeat(s, e.chain, e.timestamp, e.block)
    else
      var s' := Heartbeat(s.(tables := DailyTablesAfter(s.tables, e)), e.chain, e.timestamp, e.block);
      s'.(tables := s'.tables.(allTime := PutAllTime(s.tables.allTime, e)))
  }

  ghost function After(s: Store, x: Event): Store {
    match x
    case PoolSwap(e) => AfterSwap(s, e)
    case BrokerSwap(chain, timestamp) => s.(cursors := CursorsAfter(s.cursors, chain, Brokers, timestamp))
  }

  ghost function StoreOf(h: seq<Event>): Store {
    if h == [] then EMPTY_STORE else After(StoreOf(h[..|h| - 1]), h[|h| - 1])
  }

  function SwapsOf(h: seq<Event>): seq<Swap> {
    if h == [] then [] else
      SwapsOf(h[..|h| - 1]) + (if h[|h| - 1].PoolSwap? then [h[|h| - 1].swap] else [])
  }

  /** The days flushed for a chain and venue over a run, in the order they are flushed. */
  ghost function FlushesOf(h: seq<Event>, chain: int, v: Venue): seq<int> {
    if h == [] then [] else
      var init, x := h[..|h| - 1], h[|h| - 1];
      FlushesOf(init, chain, v)
      + (if x.Chain() == chain && x.On() == v then ClosedDays(Cursor(StoreOf(init).cursors, chain, v), x.Day()) else [])
  }

  function NextFirst(first: int, day: int): int {
    if first == 0 && day > SECONDS_PER_DAY then day else first
  }

  function NextLatest(latest: int, day: int): int {
    if day > latest then day else latest
  }

  /** The day of the first event past day one, 0 if there is none. */
  ghost function FirstDay(h: seq<Event>, chain: int, v: Venue): int {
    if h == [] then 0 else
      var first, x := FirstDay(h[..|h| - 1], chain, v), h[|h| - 1];
      if x.Chain() == chain && x.On() == v then NextFirst(first, x.Day()) else first
  }

  ghost function LatestDay(h: seq<Event>, chain: int, v: Venue): int {
    if h == [] then 0 else
      var latest, x := LatestDay(h[..|h| - 1], chain, v), h[|h| - 1];
      if x.Chain() == chain && x.On() == v then NextLatest(latest, x.Day()) else latest
  }

  /** Time never runs backwards on a chain. */
  ghost predicate Chronological(h: seq<Event>) {
    forall i, j :: 0 <= i < j < |h| && h[i].Chain() == h[j].Chain() ==> h[i].Time() <= h[j].Time()
  }

  // ---------------------------------------------------------------- recomputation from the history

  /** Whether swaps of day `d` count in the row of a closed day: 6, 29 or 89 days, which today's
      makes 7, 30 or 90; no day for 24h, and every day for the unbounded window. */
  predicate InRange(w: Window, day: int, d: int) {
    && d <= day
    && match w
       case W24h => false
       case W7d => day - d <= 5 * 86400
       case W30d => day - d <= 28 * 86400
       case W90d => day - d <= 88 * 86400
       case WAll => true
  }

  /** The day that leaves a 7, 30 or 90 day window next. */
  predicate AtBound(w: Window, day: int, d: int) {
    match w
    case W7d => day - d == 5 * 86400
    case W30d => day - d == 28 * 86400
    case W90d => day - d == 88 * 86400
    case _ => false
  }

  /** The start a row shows; for 24h the day after the closed one. */
  function ShownStart(w: Window, day: int): int {
    match w
    case W24h => day + 86400
    case W7d => day - 5 * 86400
    case W30d => day - 28 * 86400
    case W90d => day - 88 * 86400
    case WAll => 0
  }

  ghost function EventsIn(chain: int, day: int, w: Window, trader: string): Swap -> bool {
    (e: Swap) => Accepted(e) && e.chain == chain && InRange(w, day, e.Day()) && e.caller == trader
  }

  ghost function EventsOnFirstDay(chain: int, day: int, w: Window, trader: string): Swap -> bool {
    (e: Swap) => EventsIn(chain, day, w, trader)(e) && AtBound(w, day, e.Day())
  }

  ghost function HistoryAgg(h: seq<Swap>, chain: int, day: int, w: Window, trader: string): TraderAgg {
    var p, q := EventsIn(chain, day, w, trader), EventsOnFirstDay(chain, day, w, trader);
    TraderAgg(
      trader, SumOf(h, p, Volume), SumOf(h, p, One),
      exists e :: e in h && p(e) && e.actor,
      SumOf(h, q, Volume), SumOf(h, q, One),
      w == W24h || w == WAll || exists e :: e in h && p(e) && !AtBound(w, day, e.Day()))
  }

  ghost function HistoryTraders(h: seq<Swap>, chain: int, day: int, w: Window): set<string> {
    set e | e in h && EventsIn(chain, day, w, e.caller)(e) :: e.caller
  }

  ghost function HistoryAggs(h: seq<Swap>, chain: int, day: int, w: Window): map<string, TraderAgg> {
    map t | t in HistoryTraders(h, chain, day, w) :: HistoryAgg(h, chain, day, w, t)
  }

  /** The snapshot row a batch job would compute from all swaps of the window. */
  ghost function ExpectedRow(h: seq<Swap>, k: WindowKey, block: int, updatedAt: int): WindowRow {
    RowFrom(HistoryAggs(h, k.chain, k.day, k.window), k.chain, k.window, k.day, block, updatedAt).(windowStartDay := ShownStart(k.window, k.day))
  }
}
