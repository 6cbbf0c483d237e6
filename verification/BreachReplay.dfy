/** Feeding the updates of many pools to one breach table. */
module BreachReplay {
  import opened Outcomes
  import opened DeviationBreach
  import opened BreachRuns

  datatype PoolUpdate = PoolUpdate(id: string, change: Change)

  function ChangesOf(events: seq<PoolUpdate>, id: string): seq<Change> {
    if events == [] then [] else
      ChangesOf(events[..|events| - 1], id) + (if events[|events| - 1].id == id then [events[|events| - 1].change] else [])
  }

  ghost function OwnRows(rows: map<RowKey, BreachRow>, id: string): map<RowKey, BreachRow> {
    map k | k in rows && k.poolId == id :: rows[k]
  }

  /** Each pool's part of the table and its counters are its own ledger. */
  ghost predicate LedgersAre(rows: map<RowKey, BreachRow>, pools: map<string, PoolState>, events: seq<PoolUpdate>) {
    forall id :: OwnLedger(rows, pools, events, id)
  }

  ghost predicate OwnLedger(rows: map<RowKey, BreachRow>, pools: map<string, PoolState>, events: seq<PoolUpdate>, id: string) {
    Ledger(OwnRows(rows, id), Lookup(pools, id)) == LedgerOf(id, ChangesOf(events, id))
  }

  lemma {:induction false} RunsOfPrefix(events: seq<PoolUpdate>, n: nat, id: string)
    requires n <= |events| && Run(ChangesOf(events, id))
    ensures Run(ChangesOf(events[..n], id))
    decreases |events|
  {
    hide Run;
    if n < |events| {
      var init, e := events[..|events| - 1], events[|events| - 1];
      if e.id == id { RunInit(ChangesOf(init, id), e.change); } else { assert ChangesOf(events, id) == ChangesOf(init, id); }
      assert events[..n] == init[..n];
      RunsOfPrefix(init, n, id);
    } else {
      assert events[..n] == events;
    }
  }

  /** Whichever open row is found, it is the only one. */
  lemma AnyPickIsPick(id: string, h: seq<Change>, open: Option<RowKey>)
    requires Run(h) && LastAnchor(h) > 0 && Picks(LedgerOf(id, h).rows, id, LastAnchor(h), open)
    ensures open == Pick(LedgerOf(id, h).rows, id, LastAnchor(h))
  {
    hide LedgerOf, Run;
    LedgerConserves(id, h);
    RowIsAlwaysFound(id, h);
  }

  /** A transition of one pool reads and writes that pool's rows only. */
  lemma TransitionIsOwn(rows: map<RowKey, BreachRow>, prev: Option<PoolState>, next: PoolState, t: Trigger, open: Option<RowKey>)
    requires WasBreached(prev) ==> Picks(rows, next.id, prev.value.anchor, open)
    ensures WasBreached(prev) ==> Picks(OwnRows(rows, next.id), next.id, prev.value.anchor, open)
    ensures OwnRows(RowsAfter(rows, prev, next, t, open), next.id) == RowsAfter(OwnRows(rows, next.id), prev, next, t, open)
    ensures PoolAfter(rows, prev, next, t, open) == PoolAfter(OwnRows(rows, next.id), prev, next, t, open)
    ensures forall id :: id != next.id ==> OwnRows(RowsAfter(rows, prev, next, t, open), id) == OwnRows(rows, id)
  {
    hide ClosedRow, ContinuedRow, OpenRow, ClassifyBreachEvent;
    if WasBreached(prev) {
      assert forall k :: IsOpenRow(rows, k, next.id, prev.value.anchor) <==> IsOpenRow(OwnRows(rows, next.id), k, next.id, prev.value.anchor);
    }
  }

  lemma OwnStep(rows: map<RowKey, BreachRow>, prev: Option<PoolState>, id: string, h: seq<Change>, x: Change, open: Option<RowKey>)
    requires Run(h) && Ledger(OwnRows(rows, id), prev) == LedgerOf(id, h)
    requires WasBreached(prev) ==> Picks(rows, id, prev.value.anchor, open)
    ensures
      var next := NextState(prev, id, x);
      && Ledger(OwnRows(RowsAfter(rows, prev, next, x.trigger, open), id), Some(PoolAfter(rows, prev, next, x.trigger, open)))
         == LedgerOf(id, h + [x])
      && forall j :: j != id ==> OwnRows(RowsAfter(rows, prev, next, x.trigger, open), j) == OwnRows(rows, j)
  {
    hide LedgerOf, Run, Picks, ClosedRow, ContinuedRow, OpenRow, ClassifyBreachEvent, OwnRows;
    TransitionIsOwn(rows, prev, NextState(prev, id, x), x.trigger, open);
    LedgerAppend(id, h, x);
    if WasBreached(prev) {
      LedgerFollows(id, h);
      AnyPickIsPick(id, h, open);
    }
  }

  /** Whatever the interleaving of the pools, the one table holds each pool's own ledger. */
  method Replay(events: seq<PoolUpdate>) returns (table: BreachTable, pools: map<string, PoolState>)
    requires forall id :: Run(ChangesOf(events, id))
    ensures fresh(table) && LedgersAre(table.rows, pools, events)
  {
    hide Run, LedgerOf, Picks, RowsAfter, PoolAfter, OwnRows;
    table := new BreachTable();
    pools := map[];
    NothingRecorded();
    for i := 0 to |events|
      invariant fresh(table) && LedgersAre(table.rows, pools, events[..i])
    {
      var id, x := events[i].id, events[i].change;
      var prev := Lookup(pools, id);
      ghost var rows, was := table.rows, pools;
      RunsOfPrefix(events, i, id);
      assert OwnLedger(rows, was, events[..i], id);
      var updated, open := table.RecordBreachTransition(prev, NextState(prev, id, x), x.trigger);
      pools := pools[id := updated];
      OwnStep(rows, prev, id, ChangesOf(events[..i], id), x, open);
      assert events[..i + 1] == events[..i] + [events[i]];
      LedgersMove(rows, table.rows, was, pools, events[..i], events[i]);
    }
    assert events[..|events|] == events;
  }

  lemma LedgersMove(rows: map<RowKey, BreachRow>, rows': map<RowKey, BreachRow>, pools: map<string, PoolState>, pools': map<string, PoolState>,
      events: seq<PoolUpdate>, e: PoolUpdate)
    requires LedgersAre(rows, pools, events) && e.id in pools' && pools' == pools[e.id := pools'[e.id]]
    requires Ledger(OwnRows(rows', e.id), Some(pools'[e.id])) == LedgerOf(e.id, ChangesOf(events, e.id) + [e.change])
    requires forall j :: j != e.id ==> OwnRows(rows', j) == OwnRows(rows, j)
    ensures LedgersAre(rows', pools', events + [e])
  {
    hide LedgerOf, OwnRows;
    forall j: string ensures OwnLedger(rows', pools', events + [e], j) {
      assert OwnLedger(rows, pools, events, j);
      ChangesAppend(events, e, j);
      assert j != e.id ==> ChangesOf(events, j) + [] == ChangesOf(events, j);
    }
  }

  lemma ChangesAppend(events: seq<PoolUpdate>, e: PoolUpdate, id: string)
    ensures ChangesOf(events + [e], id) == ChangesOf(events, id) + (if e.id == id then [e.change] else [])
  {
    assert (events + [e])[..|events + [e]| - 1] == events;
  }

  lemma NothingRecorded()
    ensures LedgersAre(map[], map[], [])
  {
  }
}
