/** The breach ledger of one pool over any run of its updates. */
module BreachRuns {
  import opened Outcomes
  import opened Sums
  import opened TradingCalendar
  import opened DeviationBreach

  /** One update of the pool: the new anchor and sample, and the event that caused it. */
  datatype Change = Change(anchor: int, degenerate: bool, priceDifference: nat, rebalanceThreshold: int, neverRebalance: bool, trigger: Trigger)

  datatype Ledger = Ledger(rows: map<RowKey, BreachRow>, pool: Option<PoolState>)

  const EMPTY_LEDGER := Ledger(map[], None)

  function NextState(prev: Option<PoolState>, id: string, x: Change): PoolState {
    PoolState(id, x.anchor, x.degenerate, x.priceDifference, x.rebalanceThreshold, x.neverRebalance,
      if prev.Some? then prev.value.breachSeconds else 0,
      if prev.Some? then prev.value.criticalSeconds else 0,
      if prev.Some? then prev.value.breachCount else 0)
  }

  ghost function Pick(rows: map<RowKey, BreachRow>, poolId: string, startedAt: int): (open: Option<RowKey>)
    ensures Picks(rows, poolId, startedAt, open)
  {
    if k :| IsOpenRow(rows, k, poolId, startedAt) then Some(k) else None
  }

  ghost function After(s: Ledger, id: string, x: Change): Ledger {
    var next := NextState(s.pool, id, x);
    var open := if WasBreached(s.pool) then Pick(s.rows, id, s.pool.value.anchor) else None;
    Ledger(RowsAfter(s.rows, s.pool, next, x.trigger, open), Some(PoolAfter(s.rows, s.pool, next, x.trigger, open)))
  }

  ghost function LedgerOf(id: string, h: seq<Change>): Ledger {
    if h == [] then EMPTY_LEDGER else After(LedgerOf(id, h[..|h| - 1]), id, h[|h| - 1])
  }

  function LastAnchor(h: seq<Change>): int {
    if h == [] then 0 else h[|h| - 1].anchor
  }

  predicate Earlier(a: Trigger, b: Trigger) {
    a.timestamp <= b.timestamp && (a.block < b.block || (a.block == b.block && a.logIndex < b.logIndex))
  }

  /** Events in order, and an anchor that is set to the block time on the rising edge, kept while
      the breach is open, and zero when closed or degenerate. */
  ghost predicate Run(h: seq<Change>) {
    && (forall i :: 0 <= i < |h| ==> h[i].trigger.timestamp > 0)
    && (forall i, j :: 0 <= i < j < |h| ==> Earlier(h[i].trigger, h[j].trigger))
    && (forall i :: 0 <= i < |h| && h[i].degenerate ==> h[i].anchor == 0)
    && (forall i :: 0 <= i < |h| && h[i].anchor != 0 ==>
          h[i].anchor == if LastAnchor(h[..i]) > 0 then LastAnchor(h[..i]) else h[i].trigger.timestamp)
  }

  // ---------------------------------------------------------------- episodes: the reference definition

  /** A breach opens at update `i`. */
  predicate Opens(h: seq<Change>, i: int) {
    0 <= i < |h| && h[i].anchor > 0 && (i == 0 || h[i - 1].anchor <= 0)
  }

  /** The first update from `j` on with no breach, or the end of the run. */
  function End(h: seq<Change>, j: nat): (e: nat)
    requires j <= |h|
    ensures j <= e <= |h|
    ensures forall k :: j <= k < e ==> h[k].anchor != 0
    ensures e < |h| ==> h[e].anchor == 0
    decreases |h| - j
  {
    if j == |h| || h[j].anchor == 0 then j else End(h, j + 1)
  }

  /** Where the breach opened at `i` ends. */
  function EndOf(h: seq<Change>, i: int): int {
    if 0 <= i < |h| then End(h, i + 1) else 0
  }

  /** The breach opened at `i` as it stands after updates i .. e - 1. */
  ghost function OpenPart(id: string, h: seq<Change>, i: nat, e: nat): BreachRow
    requires i < e <= |h|
    decreases e
  {
    if e == i + 1 then OpenRow(NextState(None, id, h[i]), h[i].trigger, ClassifyBreachEvent(h[i].trigger.source))
    else ContinuedRow(OpenPart(id, h, i, e - 1), NextState(None, id, h[e - 1]), h[e - 1].trigger)
  }

  ghost function EpisodeRow(id: string, h: seq<Change>, i: nat): BreachRow
    requires i < |h|
  {
    var e := EndOf(h, i);
    if e < |h| then ClosedRow(OpenPart(id, h, i, e), h[i].trigger.timestamp, h[e].trigger) else OpenPart(id, h, i, e)
  }

  function EpisodeKey(id: string, h: seq<Change>, i: nat): RowKey
    requires i < |h|
  {
    var t := h[i].trigger;
    RowKey(id, t.timestamp, t.block, t.txHash, t.logIndex)
  }

  function RebalancesIn(h: seq<Change>, i: nat, e: nat): nat
    requires i <= e <= |h|
  {
    if i == e then 0 else RebalancesIn(h, i, e - 1) + (if h[e - 1].trigger.source == "fpmm_rebalanced" then 1 else 0)
  }

  /** What the row of a breach says: the peak is the largest difference of its updates, first
      reached when the row says so; every rebalance among them is counted; the cause is that of
      the first update with a known one. */
  lemma {:induction false} RowOfUpdates(id: string, h: seq<Change>, i: nat, e: nat)
    requires i < e <= |h|
    ensures
      var row := OpenPart(id, h, i, e);
      && row.ended == None && row.entryDifference == h[i].priceDifference && row.startedAtBlock == h[i].trigger.block
      && row.entryThreshold == (if h[i].neverRebalance then 0 else if h[i].rebalanceThreshold > 0 then h[i].rebalanceThreshold else 10000)
      && row.rebalances == RebalancesIn(h, i, e)
      && (forall k :: i <= k < e ==> h[k].priceDifference <= row.peak)
      && (exists k :: i <= k < e && FirstPeak(h, i, k, row))
      && (exists k :: i <= k < e && FirstCause(h, i, e, k, row))
    decreases e
  {
    hide ClassifyBreachEvent;
    if e == i + 1 {
      assert RebalancesIn(h, i, i) == 0;
      assert FirstPeak(h, i, i, OpenPart(id, h, i, e)) && FirstCause(h, i, e, i, OpenPart(id, h, i, e));
    } else {
      RowOfUpdates(id, h, i, e - 1);
      var prior, row := OpenPart(id, h, i, e - 1), OpenPart(id, h, i, e);
      var k :| i <= k < e - 1 && FirstPeak(h, i, k, prior);
      assert if h[e - 1].priceDifference > prior.peak then FirstPeak(h, i, e - 1, row) else FirstPeak(h, i, k, row);
      var c :| i <= c < e - 1 && FirstCause(h, i, e - 1, c, prior);
      assert if prior.startedBy == Unknown && ClassifyBreachEvent(h[e - 1].trigger.source) != Unknown
             then FirstCause(h, i, e, e - 1, row) else FirstCause(h, i, e, c, row);
    }
  }

  ghost predicate FirstPeak(h: seq<Change>, i: nat, k: int, row: BreachRow) {
    && 0 <= i <= k < |h| && row.peak == h[k].priceDifference
    && row.peakAt == h[k].trigger.timestamp && row.peakAtBlock == h[k].trigger.block
    && forall j :: i <= j < k ==> h[j].priceDifference < row.peak
  }

  ghost predicate FirstCause(h: seq<Change>, i: nat, e: nat, k: int, row: BreachRow) {
    && 0 <= i <= k < e <= |h| && row.startedBy == ClassifyBreachEvent(h[k].trigger.source) && row.startedByTx == h[k].trigger.txHash
    && (forall j :: i <= j < k ==> ClassifyBreachEvent(h[j].trigger.source) == Unknown)
    && (row.startedBy == Unknown ==> k == i && forall j :: i <= j < e ==> ClassifyBreachEvent(h[j].trigger.source) == Unknown)
  }

  // ---------------------------------------------------------------- appending an update

  lemma {:induction false} EndAppend(h: seq<Change>, x: Change, j: nat)
    requires j <= |h|
    ensures End(h + [x], j) == if End(h, j) < |h| then End(h, j) else if x.anchor == 0 then |h| else |h| + 1
    decreases |h| - j
  {
    if j < |h| && h[j].anchor != 0 { EndAppend(h, x, j + 1); }
  }

  lemma EndOfAppend(h: seq<Change>, x: Change, i: nat)
    requires i < |h|
    ensures EndOf(h + [x], i) == if EndOf(h, i) < |h| then EndOf(h, i) else if x.anchor == 0 then |h| else |h| + 1
    ensures i < EndOf(h, i) <= |h|
  {
    EndAppend(h, x, i + 1);
  }

  lemma {:induction false} OpenPartAppend(id: string, h: seq<Change>, x: Change, i: nat, e: nat)
    requires i < e <= |h|
    ensures OpenPart(id, h + [x], i, e) == OpenPart(id, h, i, e)
    decreases e
  {
    hide ContinuedRow, OpenRow;
    if e > i + 1 { OpenPartAppend(id, h, x, i, e - 1); }
  }

  /** How an existing episode moves when an update arrives. */
  ghost function MovedRow(id: string, h: seq<Change>, x: Change, i: nat): BreachRow
    requires i < |h|
  {
    var row := EpisodeRow(id, h, i);
    if EndOf(h, i) < |h| then row
    else if x.anchor == 0 then ClosedRow(row, h[i].trigger.timestamp, x.trigger)
    else ContinuedRow(row, NextState(None, id, x), x.trigger)
  }

  lemma EpisodeAppend(id: string, h: seq<Change>, x: Change, i: nat)
    requires i < |h|
    ensures EpisodeRow(id, h + [x], i) == MovedRow(id, h, x, i)
  {
    hide ContinuedRow, OpenRow, ClosedRow;
    EndOfAppend(h, x, i);
    OpenPartAppend(id, h, x, i, EndOf(h, i));
    assert (h + [x])[|h|] == x && (h + [x])[i] == h[i];
  }

  lemma OpensAppend(h: seq<Change>, x: Change, i: int)
    ensures Opens(h + [x], i) <==> Opens(h, i) || (i == |h| && x.anchor > 0 && LastAnchor(h) <= 0)
  {
  }

  lemma RunInit(h: seq<Change>, x: Change)
    requires Run(h + [x])
    ensures Run(h) && x.trigger.timestamp > 0 && (x.degenerate ==> x.anchor == 0)
    ensures x.anchor == 0 || x.anchor == if LastAnchor(h) > 0 then LastAnchor(h) else x.trigger.timestamp
    ensures forall i :: 0 <= i < |h| ==> Earlier(h[i].trigger, x.trigger)
  {
    hide Earlier;
    var all := h + [x];
    assert all[..|h|] == h && all[|h|] == x;
    forall i | 0 <= i < |h| ensures h[..i] == all[..i] && h[i] == all[i] {}
  }

  // ---------------------------------------------------------------- the open breach

  /** A breach is open exactly when the anchor is positive; then it is the only one, and it
      opened at the anchor. */
  ghost predicate OpenIs(h: seq<Change>) {
    && LastAnchor(h) >= 0
    && (forall i :: Opens(h, i) ==> (EndOf(h, i) == |h| ==> LastAnchor(h) > 0 && h[i].trigger.timestamp == LastAnchor(h)))
    && (forall i, j :: Opens(h, i) && Opens(h, j) && EndOf(h, i) == |h| && EndOf(h, j) == |h| ==> i == j)
    && (LastAnchor(h) > 0 ==> exists i :: Opens(h, i) && EndOf(h, i) == |h|)
  }

  lemma OpenIsStep(h: seq<Change>, x: Change)
    requires OpenIs(h) && x.anchor >= 0
    requires x.anchor == 0 || x.anchor == if LastAnchor(h) > 0 then LastAnchor(h) else x.trigger.timestamp
    ensures OpenIs(h + [x])
  {
    hide Opens, EndOf;
    var all := h + [x];
    forall i ensures Opens(all, i) <==> Opens(h, i) || (i == |h| && x.anchor > 0 && LastAnchor(h) <= 0) { OpensAppend(h, x, i); }
    forall i ensures Opens(h, i) ==> 0 <= i < |h| { OpensRange(h, i); }
    forall i | Opens(h, i) ensures EndOf(all, i) == (if EndOf(h, i) < |h| then EndOf(h, i) else if x.anchor == 0 then |h| else |h| + 1) && EndOf(h, i) <= |h| {
      EndOfAppend(h, x, i);
    }
    EndOfLast(h, x);
    assert all[|h|] == x;
  }

  lemma OpensRange(h: seq<Change>, i: int)
    ensures Opens(h, i) ==> 0 <= i < |h|
  {
  }

  lemma EndOfLast(h: seq<Change>, x: Change)
    ensures EndOf(h + [x], |h|) == |h| + 1
  {
  }

  lemma {:induction false} OpenBreachIsAnchor(h: seq<Change>)
    requires Run(h)
    ensures OpenIs(h)
  {
    if h != [] {
      hide Run, OpenIs;
      var init, x := h[..|h| - 1], h[|h| - 1];
      assert h == init + [x];
      RunInit(init, x);
      OpenBreachIsAnchor(init);
      assert LastAnchor(init) >= 0 by { AnchorsNatural(init); }
      OpenIsStep(init, x);
    }
  }

  lemma AnchorsNatural(h: seq<Change>)
    requires OpenIs(h)
    ensures LastAnchor(h) >= 0
  {
  }

  // ---------------------------------------------------------------- rows are episodes

  ghost predicate RowsAre(rows: map<RowKey, BreachRow>, id: string, h: seq<Change>) {
    && (forall i :: Opens(h, i) ==> EpisodeKey(id, h, i) in rows && rows[EpisodeKey(id, h, i)] == EpisodeRow(id, h, i))
    && (forall k :: k in rows ==> exists i :: Opens(h, i) && k == EpisodeKey(id, h, i))
  }

  /** The distinct events give distinct keys. */
  lemma KeysDiffer(id: string, h: seq<Change>, i: nat, j: nat)
    requires Run(h) && i < |h| && j < |h| && EpisodeKey(id, h, i) == EpisodeKey(id, h, j)
    ensures i == j
  {
    assert i < j ==> Earlier(h[i].trigger, h[j].trigger);
    assert j < i ==> Earlier(h[j].trigger, h[i].trigger);
  }

  lemma OpenRowIsEpisode(rows: map<RowKey, BreachRow>, id: string, h: seq<Change>, i: nat)
    requires Opens(h, i) && RowsAre(rows, id, h)
    ensures rows[EpisodeKey(id, h, i)].ended.None? <==> EndOf(h, i) == |h|
  {
    hide ContinuedRow, OpenRow;
    RowOfUpdates(id, h, i, EndOf(h, i));
  }

  /** Under a positive anchor the ledger finds exactly the open breach's row. */
  lemma PickIsOpen(rows: map<RowKey, BreachRow>, id: string, h: seq<Change>, i: nat)
    requires Run(h) && RowsAre(rows, id, h) && Opens(h, i) && EndOf(h, i) == |h|
    ensures Pick(rows, id, LastAnchor(h)) == Some(EpisodeKey(id, h, i))
  {
    hide EpisodeRow, Run, Earlier;
    OpenBreachIsAnchor(h);
    OpenRowIsEpisode(rows, id, h, i);
    var key := EpisodeKey(id, h, i);
    assert IsOpenRow(rows, key, id, LastAnchor(h));
    forall k | IsOpenRow(rows, k, id, LastAnchor(h)) ensures k == key {
      var j :| Opens(h, j) && k == EpisodeKey(id, h, j);
      OpenRowIsEpisode(rows, id, h, j);
    }
  }

  ghost predicate FollowsRun(s: Ledger, id: string, h: seq<Change>) {
    && RowsAre(s.rows, id, h)
    && (h == [] ==> s.pool == None)
    && (h != [] ==> s.pool.Some? && s.pool.value.anchor == LastAnchor(h) && s.pool.value.id == id)
  }

  lemma NothingOpens(id: string)
    ensures FollowsRun(EMPTY_LEDGER, id, [])
  {
  }

  /** What an update does to the episodes: it opens, continues or closes one, or none. */
  ghost predicate EpisodesMove(id: string, h: seq<Change>, x: Change) {
    && (forall i :: Opens(h + [x], i) <==> Opens(h, i) || (i == |h| && x.anchor > 0 && LastAnchor(h) <= 0))
    && (forall i: nat :: i < |h| ==> EpisodeKey(id, h + [x], i) == EpisodeKey(id, h, i))
    && (forall i: nat :: i < |h| ==> EpisodeRow(id, h + [x], i) == MovedRow(id, h, x, i))
    && (forall i: nat, j: nat :: i < |h| + 1 && j < |h| + 1 && EpisodeKey(id, h + [x], i) == EpisodeKey(id, h + [x], j) ==> i == j)
  }

  lemma EpisodesMoveBy(id: string, h: seq<Change>, x: Change)
    requires Run(h + [x])
    ensures EpisodesMove(id, h, x)
  {
    hide ContinuedRow, ClosedRow, EpisodeRow, Run, End, Opens;
    forall i ensures Opens(h + [x], i) <==> Opens(h, i) || (i == |h| && x.anchor > 0 && LastAnchor(h) <= 0) { OpensAppend(h, x, i); }
    forall i: nat | i < |h| ensures EpisodeRow(id, h + [x], i) == MovedRow(id, h, x, i) { EpisodeAppend(id, h, x, i); }
    forall i: nat, j: nat | i < |h| + 1 && j < |h| + 1 && EpisodeKey(id, h + [x], i) == EpisodeKey(id, h + [x], j) ensures i == j {
      KeysDiffer(id, h + [x], i, j);
    }
  }

  /** No breach before or after: nothing is written. */
  lemma QuietStep(s: Ledger, id: string, h: seq<Change>, x: Change)
    requires EpisodesMove(id, h, x) && OpenIs(h) && RowsAre(s.rows, id, h)
    requires LastAnchor(h) == 0 && x.anchor == 0
    ensures RowsAre(s.rows, id, h + [x])
  {
    hide ContinuedRow, ClosedRow, EpisodeRow, End, EpisodeKey;
  }

  lemma RisingStep(s: Ledger, id: string, h: seq<Change>, x: Change, k: RowKey, row: BreachRow)
    requires EpisodesMove(id, h, x) && OpenIs(h) && RowsAre(s.rows, id, h)
    requires LastAnchor(h) == 0 && x.anchor > 0 && k == EpisodeKey(id, h + [x], |h|) && row == EpisodeRow(id, h + [x], |h|)
    ensures RowsAre(s.rows[k := row], id, h + [x])
  {
    hide ContinuedRow, ClosedRow, EpisodeRow, End, EpisodeKey;
  }

  /** The open breach's row is rewritten, whether it goes on or ends. */
  lemma OpenStep(s: Ledger, id: string, h: seq<Change>, x: Change, i: nat, row: BreachRow)
    requires EpisodesMove(id, h, x) && OpenIs(h) && RowsAre(s.rows, id, h)
    requires LastAnchor(h) > 0 && Opens(h, i) && EndOf(h, i) == |h| && row == EpisodeRow(id, h + [x], i)
    ensures RowsAre(s.rows[EpisodeKey(id, h, i) := row], id, h + [x])
  {
    hide ContinuedRow, ClosedRow, EpisodeRow, End, EpisodeKey;
    var rows := s.rows[EpisodeKey(id, h, i) := row];
    forall j | Opens(h + [x], j) ensures EpisodeKey(id, h + [x], j) in rows && rows[EpisodeKey(id, h + [x], j)] == EpisodeRow(id, h + [x], j) {
      assert Opens(h, j);
    }
  }

  /** The rows after one more update are the episodes again. */
  lemma RowsStep(s: Ledger, id: string, h: seq<Change>, x: Change)
    requires Run(h + [x]) && FollowsRun(s, id, h)
    ensures RowsAre(After(s, id, x).rows, id, h + [x])
  {
    hide ContinuedRow, OpenRow, ClosedRow, EpisodeRow, Run, End, EpisodesMove, RowsAre, EpisodeKey, Opens;
    RunInit(h, x);
    OpenBreachIsAnchor(h);
    EpisodesMoveBy(id, h, x);
    CountersDoNotMatter(s.pool, id, x);
    if LastAnchor(h) > 0 {
      var i :| Opens(h, i) && EndOf(h, i) == |h|;
      OpensRange(h, i);
      PickIsOpen(s.rows, id, h, i);
      EpisodeAppend(id, h, x, i);
      RowOfOpen(s.rows, id, h, i);
      OpenStep(s, id, h, x, i, EpisodeRow(id, h + [x], i));
    } else if x.anchor > 0 {
      NewEpisode(id, h, x);
      RisingStep(s, id, h, x, EpisodeKey(id, h + [x], |h|), EpisodeRow(id, h + [x], |h|));
    } else {
      QuietStep(s, id, h, x);
    }
  }

  lemma RowOfOpen(rows: map<RowKey, BreachRow>, id: string, h: seq<Change>, i: nat)
    requires RowsAre(rows, id, h) && Opens(h, i)
    ensures EpisodeKey(id, h, i) in rows && rows[EpisodeKey(id, h, i)] == EpisodeRow(id, h, i)
    ensures EpisodeKey(id, h, i).startedAt == h[i].trigger.timestamp
  {
    hide EpisodeRow;
  }

  /** Rows never look at the pool's counters. */
  lemma CountersDoNotMatter(prev: Option<PoolState>, id: string, x: Change)
    ensures
      var next, bare := NextState(prev, id, x), NextState(None, id, x);
      && (forall row :: ContinuedRow(row, next, x.trigger) == ContinuedRow(row, bare, x.trigger))
      && (forall cause :: OpenRow(next, x.trigger, cause) == OpenRow(bare, x.trigger, cause))
  {
    hide ClassifyBreachEvent, IsRebalance;
  }

  lemma NewEpisode(id: string, h: seq<Change>, x: Change)
    requires x.anchor > 0
    ensures EpisodeRow(id, h + [x], |h|) == OpenRow(NextState(None, id, x), x.trigger, ClassifyBreachEvent(x.trigger.source))
    ensures EpisodeKey(id, h + [x], |h|) == KeyOf(id, x.trigger.timestamp, x.trigger)
  {
    assert (h + [x])[|h|] == x;
    assert EndOf(h + [x], |h|) == |h| + 1;
  }

  lemma {:induction false} LedgerFollows(id: string, h: seq<Change>)
    requires Run(h)
    ensures FollowsRun(LedgerOf(id, h), id, h)
  {
    hide RowsAre, Run, After;
    if h == [] {
      NothingOpens(id);
    } else {
      var init, x := h[..|h| - 1], h[|h| - 1];
      assert h == init + [x];
      RunInit(init, x);
      LedgerFollows(id, init);
      RowsStep(LedgerOf(id, init), id, init, x);
      PoolAfterStep(LedgerOf(id, init), id, x);
    }
  }

  lemma PoolAfterStep(s: Ledger, id: string, x: Change)
    ensures After(s, id, x).pool.Some? && After(s, id, x).pool.value.anchor == x.anchor && After(s, id, x).pool.value.id == id
  {
    hide RowsAfter, ClosedRow;
  }

  // ---------------------------------------------------------------- conservation

  ghost function ClosedKeys(rows: map<RowKey, BreachRow>): set<RowKey> {
    set k | k in rows && rows[k].ended.Some?
  }

  ghost function Durations(rows: map<RowKey, BreachRow>): RowKey -> int {
    (k: RowKey) => if k in rows && rows[k].ended.Some? then rows[k].ended.value.duration else 0
  }

  ghost function Criticals(rows: map<RowKey, BreachRow>): RowKey -> int {
    (k: RowKey) => if k in rows && rows[k].ended.Some? then rows[k].ended.value.critical else 0
  }

  ghost predicate Conserved(s: Ledger) {
    var breach := if s.pool.Some? then s.pool.value.breachSeconds else 0;
    var critical := if s.pool.Some? then s.pool.value.criticalSeconds else 0;
    var count := if s.pool.Some? then s.pool.value.breachCount else 0;
    && breach == SumOver(ClosedKeys(s.rows), Durations(s.rows))
    && critical == SumOver(ClosedKeys(s.rows), Criticals(s.rows))
    && count == |ClosedKeys(s.rows)|
  }

  /** Writing an open row moves no sum. */
  lemma OpenWriteConserves(rows: map<RowKey, BreachRow>, k: RowKey, row: BreachRow)
    requires row.ended.None? && (k in rows ==> rows[k].ended.None?)
    ensures ClosedKeys(rows[k := row]) == ClosedKeys(rows)
    ensures SumOver(ClosedKeys(rows), Durations(rows[k := row])) == SumOver(ClosedKeys(rows), Durations(rows))
    ensures SumOver(ClosedKeys(rows), Criticals(rows[k := row])) == SumOver(ClosedKeys(rows), Criticals(rows))
  {
    var after := rows[k := row];
    assert ClosedKeys(after) == ClosedKeys(rows);
    SumOverSame(ClosedKeys(rows), Durations(after), Durations(rows));
    SumOverSame(ClosedKeys(rows), Criticals(after), Criticals(rows));
  }

  /** Closing a row adds exactly its durations. */
  lemma CloseAdds(rows: map<RowKey, BreachRow>, k: RowKey, row: BreachRow)
    requires k in rows && rows[k].ended.None? && row.ended.Some?
    ensures
      var after := rows[k := row];
      && |ClosedKeys(after)| == |ClosedKeys(rows)| + 1
      && SumOver(ClosedKeys(after), Durations(after)) == SumOver(ClosedKeys(rows), Durations(rows)) + row.ended.value.duration
      && SumOver(ClosedKeys(after), Criticals(after)) == SumOver(ClosedKeys(rows), Criticals(rows)) + row.ended.value.critical
  {
    var after := rows[k := row];
    assert ClosedKeys(after) == ClosedKeys(rows) + {k};
    SumOverAdd(ClosedKeys(rows), k, Durations(after));
    SumOverAdd(ClosedKeys(rows), k, Criticals(after));
    SumOverSame(ClosedKeys(rows), Durations(after), Durations(rows));
    SumOverSame(ClosedKeys(rows), Criticals(after), Criticals(rows));
  }

  lemma ConservedStep(s: Ledger, id: string, h: seq<Change>, x: Change)
    requires Run(h + [x]) && FollowsRun(s, id, h) && Conserved(s)
    ensures Conserved(After(s, id, x))
  {
    hide ContinuedRow, OpenRow, EpisodeRow, Run, Earlier, End, RowsAre, ClosedKeys, Durations, Criticals, SumOver, CriticalSeconds, TradingSeconds, ClassifyBreachEvent;
    RunInit(h, x);
    OpenBreachIsAnchor(h);
    var next := NextState(s.pool, id, x);
    if LastAnchor(h) > 0 {
      var i :| Opens(h, i) && EndOf(h, i) == |h|;
      PickIsOpen(s.rows, id, h, i);
      var k := EpisodeKey(id, h, i);
      if x.anchor == 0 {
        CloseAdds(s.rows, k, ClosedRow(s.rows[k], k.startedAt, x.trigger));
      } else {
        ContinuedStaysOpen(s.rows[k], next, x.trigger);
        OpenWriteConserves(s.rows, k, ContinuedRow(s.rows[k], next, x.trigger));
      }
    } else if x.anchor > 0 {
      FreshKey(s.rows, id, h, x);
      OpenIsOpen(next, x.trigger);
      OpenWriteConserves(s.rows, KeyOf(id, x.trigger.timestamp, x.trigger), OpenRow(next, x.trigger, ClassifyBreachEvent(x.trigger.source)));
    }
  }

  lemma ContinuedStaysOpen(row: BreachRow, next: PoolState, t: Trigger)
    ensures ContinuedRow(row, next, t).ended == row.ended
  {
  }

  lemma OpenIsOpen(next: PoolState, t: Trigger)
    ensures forall cause :: OpenRow(next, t, cause).ended.None?
  {
  }

  lemma FreshKey(rows: map<RowKey, BreachRow>, id: string, h: seq<Change>, x: Change)
    requires Run(h + [x]) && RowsAre(rows, id, h)
    ensures KeyOf(id, x.trigger.timestamp, x.trigger) !in rows
  {
    hide EpisodeRow, Run;
    RunInit(h, x);
    forall k | k in rows ensures k != KeyOf(id, x.trigger.timestamp, x.trigger) {
      var i :| Opens(h, i) && k == EpisodeKey(id, h, i);
      assert Earlier(h[i].trigger, x.trigger);
    }
  }

  /** After any run: one row per breach, at most one of them open and that exactly while the
      anchor is positive, each row what its updates make it, and the pool's counters the sums and
      the number of the closed rows. */
  lemma {:induction false} LedgerConserves(id: string, h: seq<Change>)
    requires Run(h)
    ensures
      var s := LedgerOf(id, h);
      && RowsAre(s.rows, id, h) && Conserved(s)
      && (forall k, j :: k in s.rows && j in s.rows && s.rows[k].ended.None? && s.rows[j].ended.None? ==> k == j)
      && ((exists k :: k in s.rows && s.rows[k].ended.None?) <==> LastAnchor(h) > 0)
  {
    hide RowsAre, Run, RowsAfter, PoolAfter, Conserved, FollowsRun, OpenIs;
    if h == [] {
      NothingConserved();
    } else {
      var init, x := h[..|h| - 1], h[|h| - 1];
      assert h == init + [x];
      RunInit(init, x);
      LedgerConserves(id, init);
      LedgerFollows(id, init);
      ConservedStep(LedgerOf(id, init), id, init, x);
    }
    LedgerFollows(id, h);
    OneOpenRow(LedgerOf(id, h), id, h);
  }

  lemma NothingConserved()
    ensures Conserved(EMPTY_LEDGER)
  {
  }

  lemma OneOpenRow(s: Ledger, id: string, h: seq<Change>)
    requires Run(h) && FollowsRun(s, id, h)
    ensures RowsAre(s.rows, id, h)
    ensures forall k, j :: k in s.rows && j in s.rows && s.rows[k].ended.None? && s.rows[j].ended.None? ==> k == j
    ensures (exists k :: k in s.rows && s.rows[k].ended.None?) <==> LastAnchor(h) > 0
  {
    hide EpisodeRow, Run, End;
    OpenBreachIsAnchor(h);
    forall i: nat | Opens(h, i) ensures s.rows[EpisodeKey(id, h, i)].ended.None? <==> EndOf(h, i) == |h| { OpenRowIsEpisode(s.rows, id, h, i); }
    if LastAnchor(h) > 0 {
      var i :| Opens(h, i) && EndOf(h, i) == |h|;
      assert EpisodeKey(id, h, i) in s.rows;
    }
  }

  /** A breach is never credited more critical seconds than seconds. */
  lemma CriticalWithinBreach(row: BreachRow, startedAt: int, t: Trigger)
    requires startedAt <= t.timestamp
    ensures
      var closing := ClosedRow(row, startedAt, t).ended.value;
      0 <= closing.critical <= closing.duration <= t.timestamp - startedAt
  {
    hide ClassifyBreachEvent;
    var graceEnd := startedAt + DEVIATION_BREACH_GRACE_SECONDS;
    TradingSecondsLaws(startedAt, t.timestamp, t.timestamp);
    if t.timestamp > graceEnd { TradingSecondsLaws(startedAt, graceEnd, t.timestamp); }
  }

  ghost function EpisodeOf(rows: map<RowKey, BreachRow>, id: string, h: seq<Change>, k: RowKey): (i: nat)
    requires RowsAre(rows, id, h) && k in rows
    ensures Opens(h, i) && k == EpisodeKey(id, h, i) && rows[k] == EpisodeRow(id, h, i)
  {
    var i :| Opens(h, i) && k == EpisodeKey(id, h, i);
    i
  }

  lemma ClosedRowOrdered(rows: map<RowKey, BreachRow>, id: string, h: seq<Change>, k: RowKey)
    requires Run(h) && RowsAre(rows, id, h) && k in ClosedKeys(rows)
    ensures 0 <= rows[k].ended.value.critical <= rows[k].ended.value.duration
  {
    hide ContinuedRow, OpenRow, OpenPart, ClosedRow, Run, Opens, RowsAre;
    var i: nat := EpisodeOf(rows, id, h, k);
    OpensRange(h, i);
    EpisodeOrdered(id, h, i);
  }

  lemma EpisodeOrdered(id: string, h: seq<Change>, i: nat)
    requires Run(h) && i < |h| && EpisodeRow(id, h, i).ended.Some?
    ensures 0 <= EpisodeRow(id, h, i).ended.value.critical <= EpisodeRow(id, h, i).ended.value.duration
  {
    hide ContinuedRow, OpenRow, OpenPart, ClosedRow, Run;
    var e := End(h, i + 1);
    RowOfUpdates(id, h, i, e);
    if e < |h| {
      InOrder(h, i, e);
      CriticalWithinBreach(OpenPart(id, h, i, e), h[i].trigger.timestamp, h[e].trigger);
    }
  }

  lemma InOrder(h: seq<Change>, i: nat, e: nat)
    requires Run(h) && i < e < |h|
    ensures h[i].trigger.timestamp <= h[e].trigger.timestamp
  {
    assert Earlier(h[i].trigger, h[e].trigger);
  }

  /** Hence the pool's critical seconds never exceed its breach seconds. */
  lemma CriticalTotalWithinBreachTotal(id: string, h: seq<Change>)
    requires Run(h) && h != []
    ensures LedgerOf(id, h).pool.Some?
    ensures LedgerOf(id, h).pool.value.criticalSeconds <= LedgerOf(id, h).pool.value.breachSeconds
  {
    hide RowsAre, Run, SumOver;
    LedgerConserves(id, h);
    LedgerFollows(id, h);
    var rows := LedgerOf(id, h).rows;
    forall k | k in ClosedKeys(rows) ensures Criticals(rows)(k) <= Durations(rows)(k) { ClosedRowOrdered(rows, id, h, k); }
    SumOverAtMost(ClosedKeys(rows), Criticals(rows), Durations(rows));
  }

  /** In a run the missing-row branches never fire: the row looked up is always found. */
  lemma RowIsAlwaysFound(id: string, h: seq<Change>)
    requires Run(h) && LastAnchor(h) > 0
    ensures Pick(LedgerOf(id, h).rows, id, LastAnchor(h)).Some?
  {
    hide Run, RowsAre;
    LedgerFollows(id, h);
    OpenBreachIsAnchor(h);
    var i :| Opens(h, i) && EndOf(h, i) == |h|;
    PickIsOpen(LedgerOf(id, h).rows, id, h, i);
  }

  // ---------------------------------------------------------------- when the anchor moves

  lemma LedgerAppend(id: string, h: seq<Change>, x: Change)
    ensures LedgerOf(id, h + [x]) == After(LedgerOf(id, h), id, x)
  {
    assert (h + [x])[..|h|] == h;
  }

  lemma StaysOpen(row: BreachRow, next: PoolState, t: Trigger)
    ensures ContinuedRow(row, next, t).ended == row.ended
    ensures forall cause :: OpenRow(next, t, cause).ended == None
  {
  }

  /** An update that finds its open row keeps the set of rows as it is. */
  lemma KeepsOneRow(s: Ledger, id: string, x: Change, k: RowKey)
    requires s.pool.Some? && s.pool.value.anchor == k.startedAt > 0 && k.poolId == id
    requires s.rows.Keys == {k} && s.rows[k].ended.None? && x.anchor > 0 && !x.degenerate
    ensures
      var t := After(s, id, x);
      t.rows.Keys == {k} && t.rows[k].ended.None? && t.pool.Some? && t.pool.value.anchor == x.anchor
  {
    hide ContinuedRow, OpenRow;
    assert IsOpenRow(s.rows, k, id, k.startedAt);
    var open := Pick(s.rows, id, k.startedAt);
    assert open == Some(k);
    StaysOpen(s.rows[k], NextState(s.pool, id, x), x.trigger);
  }

  /** Without the discipline the ledger goes wrong. Here the anchor rule itself replaces a held
      anchor while the breach is open, and its row stays open for good beside a second one. */
  lemma MovedAnchorLeavesTwoOpen(id: string, a: Change, b: Change, c: Change, d: Change)
    requires a == Change(10, false, 200, 100, false, Trigger(10, 1, "t1", 0, "fpmm_swap", None))
    requires b == Change(10, false, 50, 100, false, Trigger(20, 2, "t2", 0, "fpmm_update_reserves", None))
    requires c == Change(20, false, 200, 100, false, Trigger(20, 2, "t2", 1, "fpmm_update_reserves", None))
    requires d == Change(20, false, 200, 100, false, Trigger(20, 2, "t2", 2, "fpmm_swap", None))
    ensures FollowsAnchorRule(id, None, a) && FollowsAnchorRule(id, Some(a), b) && FollowsAnchorRule(id, Some(b), c) && FollowsAnchorRule(id, Some(c), d)
    ensures
      var rows := LedgerOf(id, [a, b, c, d]).rows;
      var k, j := KeyOf(id, 10, a.trigger), KeyOf(id, 20, d.trigger);
      k != j && k in rows && j in rows && rows[k].ended.None? && rows[j].ended.None?
  {
    hide ContinuedRow, OpenRow, ClassifyBreachEvent;
    var k, j := KeyOf(id, 10, a.trigger), KeyOf(id, 20, d.trigger);
    assert [a, b, c, d] == [] + [a] + [b] + [c] + [d];
    LedgerAppend(id, [], a);
    LedgerAppend(id, [] + [a], b);
    LedgerAppend(id, [] + [a] + [b], c);
    LedgerAppend(id, [] + [a] + [b] + [c], d);
    var s1 := After(EMPTY_LEDGER, id, a);
    StaysOpen(OpenRow(NextState(None, id, a), a.trigger, Unknown), NextState(None, id, a), a.trigger);
    KeepsOneRow(s1, id, b, k);
    var s2 := After(s1, id, b);
    KeepsOneRow(s2, id, c, k);
    SecondRow(After(s2, id, c), id, d, k, j);
  }

  ghost predicate FollowsAnchorRule(id: string, prev: Option<Change>, x: Change) {
    x.anchor == NextDeviationBreachStartedAt(
      if prev.None? then None else Some(NextState(None, id, prev.value)), NextState(None, id, x), false, x.trigger.timestamp, x.trigger.source)
  }

  lemma SecondRow(s: Ledger, id: string, x: Change, k: RowKey, j: RowKey)
    requires s.rows.Keys == {k} && s.rows[k].ended.None? && s.pool.Some? && s.pool.value.anchor == x.anchor > 0 && !x.degenerate
    requires k.startedAt != x.anchor && j == KeyOf(id, x.anchor, x.trigger)
    ensures
      var rows := After(s, id, x).rows;
      k in rows && j in rows && rows[k].ended.None? && rows[j].ended.None?
  {
    hide ContinuedRow, OpenRow;
    assert Pick(s.rows, id, x.anchor) == None;
    StaysOpen(s.rows[k], NextState(s.pool, id, x), x.trigger);
  }
}
