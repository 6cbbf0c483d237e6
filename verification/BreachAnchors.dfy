/** The breach ledger under the anchor rule itself: when it is right, and what a moved anchor does. */
module BreachAnchors {
  import opened Outcomes
  import opened DeviationBreach
  import opened BreachRuns

  function PrevOf(h: seq<Change>, i: nat): Option<Change>
    requires i <= |h|
  {
    if i == 0 then None else Some(h[i - 1])
  }

  /** Events in order, every anchor decided by the rule. */
  ghost predicate RuledRun(id: string, h: seq<Change>) {
    && (forall i :: 0 <= i < |h| ==> h[i].trigger.timestamp > 0)
    && (forall i, j :: 0 <= i < j < |h| ==> Earlier(h[i].trigger, h[j].trigger))
    && (forall i: nat :: i < |h| ==> FollowsAnchorRule(id, PrevOf(h, i), h[i]))
  }

  predicate InBreach(id: string, x: Change) { IsInDeviationBreach(NextState(None, id, x), false) }

  /** A breach that was only held open rises again at another time than its anchor's. */
  predicate MovesAnchor(id: string, prev: Option<Change>, x: Change) {
    && prev.Some? && prev.value.anchor > 0 && !InBreach(id, prev.value) && InBreach(id, x) && prev.value.anchor != x.trigger.timestamp
  }

  ghost predicate Moves(id: string, h: seq<Change>) {
    exists i: nat :: i < |h| && MovesAnchor(id, PrevOf(h, i), h[i])
  }

  /** At most one open row; a row is open exactly while the anchor is positive, and starts at it; and
      the counters are the sums and the number of the closed rows. */
  ghost predicate LedgerRight(s: Ledger) {
    && (forall k, j :: IsOpen(s, k) && IsOpen(s, j) ==> k == j)
    && (forall k :: IsOpen(s, k) ==> s.pool.Some? && s.pool.value.anchor == k.startedAt > 0)
    && (s.pool.Some? && s.pool.value.anchor > 0 ==> exists k :: IsOpen(s, k))
    && Conserved(s)
  }

  predicate IsOpen(s: Ledger, k: RowKey) { k in s.rows && s.rows[k].ended.None? }

  lemma RuledInit(id: string, h: seq<Change>, x: Change)
    requires RuledRun(id, h + [x])
    ensures RuledRun(id, h) && FollowsAnchorRule(id, PrevOf(h, |h|), x) && x.trigger.timestamp > 0
    ensures forall i :: 0 <= i < |h| ==> Earlier(h[i].trigger, x.trigger)
    ensures Moves(id, h + [x]) <==> Moves(id, h) || MovesAnchor(id, PrevOf(h, |h|), x)
  {
    hide FollowsAnchorRule, MovesAnchor, Earlier;
    var all := h + [x];
    assert forall i :: 0 <= i < |h| ==> all[i] == h[i];
    assert all[|h|] == x && PrevOf(all, |h|) == PrevOf(h, |h|);
    forall i: nat | i < |h| ensures PrevOf(all, i) == PrevOf(h, i) && all[i] == h[i] {}
    if i: nat :| i < |all| && MovesAnchor(id, PrevOf(all, i), all[i]) { assert i == |h| || MovesAnchor(id, PrevOf(h, i), h[i]); }
    if i: nat :| i < |h| && MovesAnchor(id, PrevOf(h, i), h[i]) { assert MovesAnchor(id, PrevOf(all, i), all[i]); }
  }

  /** Which anchors the rule gives, and that it is disciplined exactly unless it moves the anchor. */
  lemma RuleAt(id: string, prev: Option<Change>, x: Change)
    requires FollowsAnchorRule(id, prev, x) && x.trigger.timestamp > 0 && (prev.Some? ==> prev.value.anchor >= 0)
    ensures x.anchor == 0 || x.anchor == x.trigger.timestamp || (prev.Some? && x.anchor == prev.value.anchor)
    ensures MovesAnchor(id, prev, x) ==> x.anchor == x.trigger.timestamp && !x.degenerate
    ensures !MovesAnchor(id, prev, x) <==>
      (x.degenerate ==> x.anchor == 0) && (x.anchor == 0 || x.anchor == if prev.Some? && prev.value.anchor > 0 then prev.value.anchor else x.trigger.timestamp)
  {
    var p := if prev.None? then None else Some(NextState(None, id, prev.value));
    AnchorRuleIsDisciplined(p, NextState(None, id, x), false, x.trigger.timestamp, x.trigger.source);
  }

  lemma {:induction false} AnchorsAreNatural(id: string, h: seq<Change>)
    requires RuledRun(id, h)
    ensures LastAnchor(h) >= 0 && (h != [] ==> PrevOf(h, |h|).value.anchor == LastAnchor(h))
  {
    hide RuledRun;
    if h != [] {
      var init, x := h[..|h| - 1], h[|h| - 1];
      assert h == init + [x];
      RuledInit(id, init, x);
      AnchorsAreNatural(id, init);
      RuleAt(id, PrevOf(init, |init|), x);
    }
  }

  /** A run in which the rule never moves the anchor has the discipline the ledger needs. */
  lemma {:induction false} UnmovedIsDisciplined(id: string, h: seq<Change>)
    requires RuledRun(id, h) && !Moves(id, h)
    ensures Run(h)
  {
    hide RuledRun, Moves, Run;
    if h == [] {
      EmptyRun();
    } else {
      var init, x := h[..|h| - 1], h[|h| - 1];
      assert h == init + [x];
      RuledInit(id, init, x);
      UnmovedIsDisciplined(id, init);
      AnchorsAreNatural(id, init);
      RuleAt(id, PrevOf(init, |init|), x);
      RunMore(init, x);
    }
  }

  lemma EmptyRun()
    ensures Run([])
  {
  }

  lemma RunMore(h: seq<Change>, x: Change)
    requires Run(h) && x.trigger.timestamp > 0 && (x.degenerate ==> x.anchor == 0)
    requires x.anchor == 0 || x.anchor == if LastAnchor(h) > 0 then LastAnchor(h) else x.trigger.timestamp
    requires forall i :: 0 <= i < |h| ==> Earlier(h[i].trigger, x.trigger)
    ensures Run(h + [x])
  {
    hide Earlier;
    var all := h + [x];
    forall i | 0 <= i <= |h| ensures all[..i] == h[..i] {}
    assert h[..|h|] == h;
  }

  lemma DisciplinedIsRight(id: string, h: seq<Change>)
    requires Run(h)
    ensures LedgerRight(LedgerOf(id, h))
  {
    hide LedgerOf, Run, Conserved, Opens, EpisodeRow;
    LedgerConserves(id, h);
    LedgerFollows(id, h);
    OpenBreachIsAnchor(h);
    var s := LedgerOf(id, h);
    forall k | IsOpen(s, k) ensures s.pool.Some? && s.pool.value.anchor == k.startedAt > 0 {
      var i := EpisodeOf(s.rows, id, h, k);
      OpensRange(h, i);
      OpenRowIsEpisode(s.rows, id, h, i);
      RowOfOpen(s.rows, id, h, i);
    }
    if s.pool.Some? && s.pool.value.anchor > 0 {
      var k :| k in s.rows && s.rows[k].ended.None?;
      assert IsOpen(s, k);
    }
  }

  // ---------------------------------------------------------------- a moved anchor

  /** An open row that no anchor names, now or ever again. */
  ghost predicate Abandoned(s: Ledger, id: string, k: RowKey) {
    && IsOpen(s, k) && k.poolId == id && s.pool.Some? && (s.pool.value.anchor == 0 || s.pool.value.anchor > k.startedAt)
  }

  /** The open row stays behind when the rule moves the anchor on. */
  lemma MoveAbandons(id: string, h: seq<Change>, x: Change) returns (k: RowKey)
    requires Run(h) && RuledRun(id, h + [x]) && MovesAnchor(id, PrevOf(h, |h|), x)
    ensures IsOpen(LedgerOf(id, h), k) && k.startedAt == LastAnchor(h) > 0 && k.poolId == id
    ensures Abandoned(LedgerOf(id, h + [x]), id, k) && k.startedAt < x.trigger.timestamp == x.anchor
    ensures LedgerOf(id, h + [x]).rows.Keys == LedgerOf(id, h).rows.Keys
    ensures forall j :: IsOpen(LedgerOf(id, h + [x]), j) <==> IsOpen(LedgerOf(id, h), j)
  {
    hide LedgerOf, Run, RuledRun, Opens, OpenPart, ClosedRow, ContinuedRow;
    RuledInit(id, h, x);
    AnchorsAreNatural(id, h);
    RuleAt(id, PrevOf(h, |h|), x);
    LedgerFollows(id, h);
    RowIsAlwaysFound(id, h);
    var s := LedgerOf(id, h);
    k := Pick(s.rows, id, LastAnchor(h)).value;
    LedgerAppend(id, h, x);
    ContinuedStaysOpen(s.rows[k], NextState(s.pool, id, x), x.trigger);
    OpenBreachIsAnchor(h);
    var i :| Opens(h, i) && EndOf(h, i) == |h|;
    OpensRange(h, i);
    assert Earlier(h[i].trigger, x.trigger);
  }

  lemma StaysAbandoned(s: Ledger, id: string, k: RowKey, x: Change)
    requires Abandoned(s, id, k) && x.trigger.timestamp > k.startedAt
    requires x.anchor == 0 || x.anchor == x.trigger.timestamp || x.anchor == s.pool.value.anchor
    ensures Abandoned(After(s, id, x), id, k)
  {
    hide ClosedRow, ContinuedRow, OpenRow, ClassifyBreachEvent;
  }

  lemma {:induction false} PoolFollows(id: string, h: seq<Change>)
    ensures h != [] ==> LedgerOf(id, h).pool.Some? && LedgerOf(id, h).pool.value.anchor == LastAnchor(h)
  {
    hide RowsAfter, ClosedRow;
  }

  /** Once moved, the row is never found again, in any continuation under the rule. */
  lemma {:induction false} MoveIsForever(id: string, h: seq<Change>)
    requires RuledRun(id, h) && Moves(id, h)
    ensures exists k :: Abandoned(LedgerOf(id, h), id, k) && k.startedAt < h[|h| - 1].trigger.timestamp
  {
    hide RuledRun, Moves, Abandoned, LedgerOf, After;
    assert h != [] by { MovesSomewhere(id, h); }
    var init, x := h[..|h| - 1], h[|h| - 1];
    assert h == init + [x];
    RuledInit(id, init, x);
    if Moves(id, init) {
      MoveIsForever(id, init);
      MovesSomewhere(id, init);
      var k :| Abandoned(LedgerOf(id, init), id, k) && k.startedAt < init[|init| - 1].trigger.timestamp;
      AnchorsAreNatural(id, init);
      RuleAt(id, PrevOf(init, |init|), x);
      PoolFollows(id, init);
      assert Earlier(init[|init| - 1].trigger, x.trigger);
      LedgerAppend(id, init, x);
      StaysAbandoned(LedgerOf(id, init), id, k, x);
    } else {
      UnmovedIsDisciplined(id, init);
      var k := MoveAbandons(id, init, x);
    }
  }

  lemma MovesSomewhere(id: string, h: seq<Change>)
    requires Moves(id, h)
    ensures h != []
  {
  }

  /** After any run under the anchor rule the ledger is right if and only if the rule never moved the
      anchor of a breach in it. */
  lemma LedgerRightExactly(id: string, h: seq<Change>)
    requires RuledRun(id, h)
    ensures LedgerRight(LedgerOf(id, h)) <==> !Moves(id, h)
  {
    hide RuledRun, Moves, LedgerOf, Run, Conserved;
    if Moves(id, h) {
      MoveIsForever(id, h);
    } else {
      UnmovedIsDisciplined(id, h);
      DisciplinedIsRight(id, h);
    }
  }

  /** The event after the move: if the breach goes on a second row opens beside the abandoned one,
      and if it ends it is counted although no row is closed. */
  lemma AfterTheMove(id: string, h: seq<Change>, x: Change, y: Change)
    requires Run(h) && RuledRun(id, h + [x] + [y]) && MovesAnchor(id, PrevOf(h, |h|), x)
    ensures
      var s := LedgerOf(id, h + [x] + [y]);
      if y.anchor > 0 then exists k, j :: k != j && IsOpen(s, k) && IsOpen(s, j)
      else s.pool.Some? && s.pool.value.breachCount == |ClosedKeys(s.rows)| + 1 && !Conserved(s)
  {
    hide LedgerOf, Run, RuledRun, After, Conserved, Moves, ClosedKeys;
    RuledInit(id, h + [x], y);
    RuledInit(id, h, x);
    AnchorsAreNatural(id, h);
    AnchorsAreNatural(id, h + [x]);
    AnchorsAreNatural(id, h + [x] + [y]);
    var k := MoveAbandons(id, h, x);
    var t := LedgerOf(id, h + [x]);
    PoolFollows(id, h + [x]);
    LedgerConserves(id, h);
    LedgerAppend(id, h, x);
    LedgerAppend(id, h + [x], y);
    NothingFound(t, id, k, LastAnchor(h + [x]));
    RuleAt(id, PrevOf(h + [x], |h + [x]|), y);
    assert LastAnchor(h + [x]) == x.anchor == x.trigger.timestamp;
    assert Earlier(x.trigger, y.trigger) by { assert (h + [x])[|h|] == x; }
    if y.anchor > 0 {
      NotDegenerate(id, PrevOf(h + [x], |h + [x]|), y);
      HeldStep(t, id, k, y);
    } else {
      LedgerFollows(id, h);
      SameCount(LedgerOf(id, h), t, id, h, x);
      ClosedStep(t, id, y);
    }
  }

  lemma HeldStep(t: Ledger, id: string, k: RowKey, y: Change)
    requires IsOpen(t, k) && t.pool.Some? && t.pool.value.anchor > 0 && Pick(t.rows, id, t.pool.value.anchor) == None
    requires y.anchor > 0 && !y.degenerate && y.anchor != k.startedAt
    ensures
      var s, j := After(t, id, y), KeyOf(id, y.anchor, y.trigger);
      k != j && IsOpen(s, k) && IsOpen(s, j)
  {
    hide ClosedRow, ContinuedRow;
  }

  lemma ClosedStep(t: Ledger, id: string, y: Change)
    requires t.pool.Some? && t.pool.value.anchor > 0 && Pick(t.rows, id, t.pool.value.anchor) == None
    requires y.anchor <= 0 && t.pool.value.breachCount == |ClosedKeys(t.rows)|
    ensures
      var s := After(t, id, y);
      s.pool.Some? && s.pool.value.breachCount == |ClosedKeys(s.rows)| + 1 && !Conserved(s)
  {
    hide ClosedRow, ContinuedRow, OpenRow, ClosedKeys, Durations, Criticals;
  }

  lemma NotDegenerate(id: string, prev: Option<Change>, x: Change)
    requires FollowsAnchorRule(id, prev, x) && x.anchor > 0
    ensures !x.degenerate
  {
  }

  /** The only open row does not start at the moved anchor. */
  lemma NothingFound(t: Ledger, id: string, k: RowKey, anchor: int)
    requires IsOpen(t, k) && k.startedAt != anchor && forall j :: IsOpen(t, j) ==> j == k
    ensures Pick(t.rows, id, anchor) == None
  {
    var open := Pick(t.rows, id, anchor);
    if open.Some? { assert IsOpen(t, open.value); }
  }

  lemma SameCount(s: Ledger, t: Ledger, id: string, h: seq<Change>, x: Change)
    requires s == LedgerOf(id, h) && t == After(s, id, x) && Conserved(s) && h != []
    requires s.rows.Keys == t.rows.Keys && (forall j :: IsOpen(t, j) <==> IsOpen(s, j)) && s.pool.Some?
    requires IsBreached(NextState(s.pool, id, x))
    ensures t.pool.Some? && t.pool.value.breachCount == |ClosedKeys(t.rows)|
  {
    hide RowsAfter, ClosedRow, Criticals, Durations;
    forall k ensures k in ClosedKeys(t.rows) <==> k in ClosedKeys(s.rows) {
      assert IsOpen(t, k) <==> IsOpen(s, k);
      assert k in t.rows.Keys <==> k in s.rows.Keys;
    }
    assert ClosedKeys(t.rows) == ClosedKeys(s.rows);
  }
}
