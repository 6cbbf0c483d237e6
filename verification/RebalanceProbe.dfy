/** One probe cycle: every active strategy of every eligible pool is probed, and a pool whose
    strategies are all blocked is flagged. */
module RebalanceProbe {
  import opened DeviationThresholds
  import opened Ordering
  import opened Outcomes
  import opened WorkerPool

  datatype StrategyRow = StrategyRow(poolId: string, address: string)

  /** `activeStrategies` is None while the registry query is unavailable; a ratio that does not
      parse is None, otherwise it is in millionths. */
  datatype PoolRow = PoolRow(
    id: string, isVirtual: bool, breachStartedAt: int, ratio: Option<int>, openPeak: int, entryThreshold: int,
    activeStrategies: Option<seq<StrategyRow>>, rebalancerAddress: string)

  datatype ProbeResult = Rebalances | Blocked(code: string, message: string) | Skipped | TransportError

  datatype Target = Target(pool: PoolRow, strategy: StrategyRow)

  datatype Label = Label(code: string, message: string)

  function RowsOf(p: PoolRow): seq<StrategyRow> {
    if p.activeStrategies.Some? then p.activeStrategies.value
    else if p.rebalancerAddress != "" then [StrategyRow(p.id, p.rebalancerAddress)] else []
  }

  ghost function AddressesOf(rows: seq<StrategyRow>): set<string> {
    set r | r in rows :: AsAddress(r.address)
  }

  predicate ByAddress(a: StrategyRow, b: StrategyRow) {
    StringLeq(AsAddress(a.address), AsAddress(b.address))
  }

  /** `row` is the first of `rows` with its address. */
  ghost predicate FirstOf(rows: seq<StrategyRow>, row: StrategyRow) {
    exists i :: 0 <= i < |rows| && rows[i] == row && forall j :: 0 <= j < i ==> AsAddress(rows[j].address) != AsAddress(row.address)
  }

  function Lowered(rows: seq<StrategyRow>): seq<string> {
    seq(|rows|, i requires 0 <= i < |rows| => AsAddress(rows[i].address))
  }

  /** One row per address, the first seen, in address order. */
  ghost predicate IsStrategyList(rows: seq<StrategyRow>, list: seq<StrategyRow>) {
    Lists(Lowered(list), AddressesOf(rows)) && forall i :: 0 <= i < |list| ==> FirstOf(rows, list[i])
  }

  function InsertRow(row: StrategyRow, list: seq<StrategyRow>): (r: seq<StrategyRow>)
    ensures |r| == |list| + 1
    ensures multiset(r) == multiset(list) + multiset{row}
  {
    if list == [] || ByAddress(row, list[0]) then [row] + list
    else
      assert list == [list[0]] + list[1..];
      [list[0]] + InsertRow(row, list[1..])
  }

  /** The addresses of an insertion are the insertion of the address. */
  lemma {:induction false} InsertLowered(row: StrategyRow, list: seq<StrategyRow>)
    ensures Lowered(InsertRow(row, list)) == Insert(AsAddress(row.address), Lowered(list), StringLeq)
    ensures forall r :: r in InsertRow(row, list) ==> r == row || r in list
  {
    hide AsAddress, StringLeq;
    if list != [] && !ByAddress(row, list[0]) {
      InsertLowered(row, list[1..]);
      assert Lowered(list) == [AsAddress(list[0].address)] + Lowered(list[1..]);
      assert Lowered(list)[1..] == Lowered(list[1..]);
    } else {
      assert Lowered([row] + list) == [AsAddress(row.address)] + Lowered(list);
    }
  }

  lemma AddressesOfAppend(rows: seq<StrategyRow>, row: StrategyRow)
    ensures AddressesOf(rows + [row]) == AddressesOf(rows) + {AsAddress(row.address)}
  {
    hide AsAddress;
    forall a ensures a in AddressesOf(rows + [row]) <==> a in AddressesOf(rows) + {AsAddress(row.address)} {
      if r :| r in rows && AsAddress(r.address) == a { assert r in rows + [row]; }
      assert row in rows + [row];
    }
  }

  lemma FirstOfAppend(rows: seq<StrategyRow>, row: StrategyRow, kept: StrategyRow)
    requires FirstOf(rows, kept) || (kept == row && AsAddress(row.address) !in AddressesOf(rows))
    ensures FirstOf(rows + [row], kept)
  {
    hide AsAddress;
    var all := rows + [row];
    if FirstOf(rows, kept) {
      var i :| 0 <= i < |rows| && rows[i] == kept && forall j :: 0 <= j < i ==> AsAddress(rows[j].address) != AsAddress(kept.address);
      assert all[i] == kept;
    } else {
      forall j | 0 <= j < |rows| ensures AsAddress(all[j].address) != AsAddress(row.address) { assert rows[j] in rows; }
      assert all[|rows|] == kept;
    }
  }

  /** Taking one more row into the list. */
  lemma ListGrows(rows: seq<StrategyRow>, row: StrategyRow, list: seq<StrategyRow>)
    requires IsStrategyList(rows, list)
    ensures IsStrategyList(rows + [row], if AsAddress(row.address) in Lowered(list) then list else InsertRow(row, list))
  {
    hide AsAddress, FirstOf, InsertRow, Distinct, Sorted;
    var address := AsAddress(row.address);
    AddressesOfAppend(rows, row);
    InElements(address, Lowered(list));
    if address in Lowered(list) {
      assert AddressesOf(rows) + {address} == AddressesOf(rows);
      forall i | 0 <= i < |list| ensures FirstOf(rows + [row], list[i]) { FirstOfAppend(rows, row, list[i]); }
    } else {
      InsertLowered(row, list);
      InsertLists(address, Lowered(list), AddressesOf(rows));
      var r := InsertRow(row, list);
      forall i | 0 <= i < |r| ensures FirstOf(rows + [row], r[i]) {
        assert r[i] in r;
        if r[i] in list { var j :| 0 <= j < |list| && list[j] == r[i]; }
        FirstOfAppend(rows, row, r[i]);
      }
    }
  }

  lemma InsertLists(x: string, list: seq<string>, members: set<string>)
    requires Lists(list, members) && x !in list
    ensures Lists(Insert(x, list, StringLeq), members + {x})
  {
    hide StringLeq, Insert;
    StringOrder();
    var r := Insert(x, list, StringLeq);
    InsertSorted(x, list, StringLeq);
    DistinctMultiset(list);
    InElements(x, list);
    forall y | y in multiset(r) ensures multiset(r)[y] == 1 { assert y in multiset(Elements(list)) || y == x; }
    DistinctFromMultiset(r);
    forall y ensures y in Elements(r) <==> y in members + {x} {
      InElements(y, r);
      InElements(y, list);
      assert y in r <==> y in multiset(r);
    }
  }

  method StrategiesForPool(p: PoolRow) returns (list: seq<StrategyRow>)
    ensures IsStrategyList(RowsOf(p), list)
  {
    hide IsStrategyList, InsertRow;
    var rows := RowsOf(p);
    list := [];
    assert IsStrategyList(rows[..0], list) by { NoRows(rows[..0]); }
    for i := 0 to |rows|
      invariant IsStrategyList(rows[..i], list)
    {
      assert rows[..i + 1] == rows[..i] + [rows[i]];
      ListGrows(rows[..i], rows[i], list);
      if AsAddress(rows[i].address) !in Lowered(list) { list := InsertRow(rows[i], list); }
    }
    assert rows[..|rows|] == rows;
  }

  lemma NoRows(none: seq<StrategyRow>)
    requires none == []
    ensures IsStrategyList(none, [])
  {
  }

  /** The list is determined by the rows: two such lists have the same addresses, row by row. */
  lemma StrategyListUnique(rows: seq<StrategyRow>, a: seq<StrategyRow>, b: seq<StrategyRow>)
    requires IsStrategyList(rows, a) && IsStrategyList(rows, b)
    ensures a == b
  {
    hide AsAddress, StringLeq;
    ListsUnique(Lowered(a), Lowered(b), AddressesOf(rows));
    assert |a| == |Lowered(a)| && |b| == |Lowered(b)|;
    forall i | 0 <= i < |a| ensures a[i] == b[i] {
      assert Lowered(a)[i] == Lowered(b)[i];
      FirstIsUnique(rows, a[i], b[i]);
    }
  }

  lemma FirstIsUnique(rows: seq<StrategyRow>, a: StrategyRow, b: StrategyRow)
    requires FirstOf(rows, a) && FirstOf(rows, b) && AsAddress(a.address) == AsAddress(b.address)
    ensures a == b
  {
    hide AsAddress;
  }

  ghost function Strategies(p: PoolRow): (list: seq<StrategyRow>)
    ensures IsStrategyList(RowsOf(p), list)
  {
    StrategyListExists(RowsOf(p));
    var list :| IsStrategyList(RowsOf(p), list);
    list
  }

  lemma {:induction false} StrategyListExists(rows: seq<StrategyRow>)
    ensures exists list :: IsStrategyList(rows, list)
  {
    hide IsStrategyList;
    if rows == [] {
      NoRows(rows);
    } else {
      var init := rows[..|rows| - 1];
      StrategyListExists(init);
      var list :| IsStrategyList(init, list);
      ListGrows(init, rows[|rows| - 1], list);
      assert rows == init + [rows[|rows| - 1]];
    }
  }

  // ---------------------------------------------------------------- eligibility

  /** An open breach, still outside tolerance, that has crossed the critical magnitude. */
  predicate DeepInBreach(p: PoolRow) {
    && p.breachStartedAt > 0 && p.ratio.Some? && p.ratio.value > TOLERANCE_MILLIONTHS
    && (p.ratio.value > CRITICAL_MILLIONTHS || PeakIsCritical(p.openPeak, p.entryThreshold))
  }

  ghost predicate Eligible(p: PoolRow) {
    !p.isVirtual && DeepInBreach(p) && |Strategies(p)| > 0
  }

  /** Eligible is: no virtual pool, an open breach above tolerance that is critical by its ratio or its
      peak, and some strategy, in the registry or, while that is unavailable, as the legacy pointer. */
  lemma EligibleMeans(p: PoolRow)
    ensures Eligible(p) <==>
      && !p.isVirtual && p.breachStartedAt > 0 && p.ratio.Some? && p.ratio.value > 1010000
      && (p.ratio.value > 1050000 || (p.openPeak > 0 && p.openPeak * 100 > 105 * (if p.entryThreshold > 0 then p.entryThreshold else 10000)))
      && (if p.activeStrategies.Some? then p.activeStrategies.value != [] else p.rebalancerAddress != "")
  {
    hide Strategies, StringLeq;
    SomeStrategy(p);
  }

  /** There is a strategy to probe exactly if a row says so; the legacy pointer is one of its own. */
  lemma SomeStrategy(p: PoolRow)
    ensures |Strategies(p)| > 0 <==> if p.activeStrategies.Some? then p.activeStrategies.value != [] else p.rebalancerAddress != ""
    ensures p.activeStrategies.Some? ==> forall s :: s in Strategies(p) ==> s in p.activeStrategies.value
    ensures p.activeStrategies.None? ==> forall s :: s in Strategies(p) ==> s == StrategyRow(p.id, p.rebalancerAddress)
  {
    hide StringLeq, AsAddress, Sorted;
    var rows, list := RowsOf(p), Strategies(p);
    assert IsStrategyList(rows, list);
    if rows != [] {
      assert rows[0] in rows && AsAddress(rows[0].address) in AddressesOf(rows);
      assert AsAddress(rows[0].address) in Elements(Lowered(list));
      InElements(AsAddress(rows[0].address), Lowered(list));
    }
    forall s | s in list ensures s in rows {
      var i :| 0 <= i < |list| && list[i] == s;
      assert FirstOf(rows, list[i]);
    }
    if |list| > 0 { assert list[0] in list; }
  }

  /** The eligible pools in their order. */
  ghost function EligibleOf(pools: seq<PoolRow>): (eligible: seq<PoolRow>)
    ensures forall p :: p in eligible <==> p in pools && Eligible(p)
  {
    if pools == [] then [] else
      var init, p := pools[..|pools| - 1], pools[|pools| - 1];
      assert pools == init + [p];
      EligibleOf(init) + (if Eligible(p) then [p] else [])
  }

  method EligibleForProbe(pools: seq<PoolRow>) returns (eligible: seq<PoolRow>)
    ensures eligible == EligibleOf(pools)
  {
    hide IsStrategyList, DeepInBreach;
    eligible := [];
    for i := 0 to |pools|
      invariant eligible == EligibleOf(pools[..i])
    {
      assert pools[..i + 1][..i] == pools[..i] && pools[..i + 1][i] == pools[i];
      if !pools[i].isVirtual && DeepInBreach(pools[i]) {
        var strategies := StrategiesForPool(pools[i]);
        StrategyListUnique(RowsOf(pools[i]), strategies, Strategies(pools[i]));
        if |strategies| != 0 { eligible := eligible + [pools[i]]; }
      }
    }
    assert pools[..|pools|] == pools;
  }

  // ---------------------------------------------------------------- targets, results and regrouping

  ghost function TargetsOf(pools: seq<PoolRow>): seq<Target> {
    if pools == [] then [] else
      var p := pools[|pools| - 1];
      TargetsOf(pools[..|pools| - 1]) + OwnTargets(p)
  }

  ghost function OwnTargets(p: PoolRow): seq<Target> {
    seq(|Strategies(p)|, i requires 0 <= i < |Strategies(p)| => Target(p, Strategies(p)[i]))
  }

  ghost predicate AllBlocked(p: PoolRow, probe: Target -> ProbeResult) {
    forall s :: s in Strategies(p) ==> probe(Target(p, s)).Blocked?
  }

  method BuildTargets(eligible: seq<PoolRow>) returns (targets: seq<Target>)
    ensures targets == TargetsOf(eligible)
  {
    hide IsStrategyList;
    targets := [];
    assert eligible[..0] == [];
    for i := 0 to |eligible|
      invariant targets == TargetsOf(eligible[..i])
    {
      var strategies := StrategiesForPool(eligible[i]);
      StrategyListUnique(RowsOf(eligible[i]), strategies, Strategies(eligible[i]));
      assert eligible[..i + 1][..i] == eligible[..i] && eligible[..i + 1][i] == eligible[i];
      targets := targets + seq(|strategies|, j requires 0 <= j < |strategies| => Target(eligible[i], strategies[j]));
    }
    assert eligible[..|eligible|] == eligible;
  }

  /** Slot k of the results belongs to target k: what the worker pool guarantees. */
  ghost predicate ResultsFor(targets: seq<Target>, results: seq<ProbeResult>, probe: Target -> ProbeResult) {
    |results| == |targets| && forall k :: 0 <= k < |targets| ==> results[k] == probe(targets[k])
  }

  ghost function Answers(targets: seq<Target>, probe: Target -> ProbeResult): (nat, ProbeResult) -> bool {
    (i: nat, r: ProbeResult) => i < |targets| && r == probe(targets[i])
  }

  /** A run of the worker pool over the targets after which all workers have stopped. */
  ghost predicate FinishedRun(targets: seq<Target>, probe: Target -> ProbeResult, concurrency: nat, run: seq<Step<ProbeResult>>) {
    && PoolAfter(|targets|, concurrency, true, Answers(targets, probe), run).Some?
    && forall w :: w in PoolAfter(|targets|, concurrency, true, Answers(targets, probe), run).value.workers ==> w == Stopped
  }

  /** It delivers such results. */
  lemma PoolGivesResults(targets: seq<Target>, probe: Target -> ProbeResult, concurrency: nat, run: seq<Step<ProbeResult>>)
    requires concurrency >= 1 && FinishedRun(targets, probe, concurrency, run)
    ensures
      var s := PoolAfter(|targets|, concurrency, true, Answers(targets, probe), run).value;
      && |s.results| == |targets| && (forall k :: 0 <= k < |targets| ==> s.results[k].Some?)
      && ResultsFor(targets, seq(|targets|, k requires 0 <= k < |targets| => OrElse(s.results[k], Skipped)), probe)
  {
    ResultsInOrder(|targets|, concurrency, true, Answers(targets, probe), run);
  }

  lemma {:induction false} TargetsPrefix(pools: seq<PoolRow>, i: nat)
    requires i < |pools|
    ensures TargetsOf(pools[..i]) + OwnTargets(pools[i]) <= TargetsOf(pools)
    decreases |pools|
  {
    hide OwnTargets;
    var init := pools[..|pools| - 1];
    if i < |init| {
      TargetsPrefix(init, i);
      assert init[..i] == pools[..i];
    }
  }

  /** The gauge of one cycle, from the results in target order. */
  method FlagBlockedPools(eligible: seq<PoolRow>, results: seq<ProbeResult>, ghost probe: Target -> ProbeResult)
    returns (gauge: map<string, Label>)
    requires ResultsFor(TargetsOf(eligible), results, probe) && forall p :: p in eligible ==> Eligible(p)
    ensures forall id :: id in gauge <==> exists p :: p in eligible && p.id == id && AllBlocked(p, probe)
    ensures forall id :: id in gauge ==> exists p :: p in eligible && p.id == id && AllBlocked(p, probe) && FirstBlocked(p, probe, gauge[id])
  {
    hide IsStrategyList, AllBlocked, FirstBlocked, Eligible, DeepInBreach, Flags, TargetsOf, OwnTargets, ResultsFor, OutcomesOf;
    gauge := map[];
    var resultOffset := 0;
    NothingFlagged(eligible[..0], probe);
    for i := 0 to |eligible|
      invariant resultOffset == |TargetsOf(eligible[..i])|
      invariant Flags(gauge, eligible[..i], probe)
    {
      var pool := eligible[i];
      var strategies := StrategiesForPool(pool);
      StrategyListUnique(RowsOf(pool), strategies, Strategies(pool));
      assert eligible[..i + 1] == eligible[..i] + [pool];
      TargetsStep(eligible, results, probe, i);
      var outcomes := results[resultOffset..resultOffset + |strategies|];
      OutcomesArePools(eligible, results, probe, i, outcomes);
      resultOffset := resultOffset + |strategies|;
      OutcomesLength(pool, probe, outcomes);
      if forall r :: r in outcomes ==> r.Blocked? {
        assert outcomes[0] in outcomes;
        BlockedOutcomes(pool, probe, outcomes);
        FlagOne(gauge, eligible[..i], pool, probe, Label(outcomes[0].code, outcomes[0].message));
        gauge := gauge[pool.id := Label(outcomes[0].code, outcomes[0].message)];
      } else {
        UnblockedOutcomes(pool, probe, outcomes);
        FlagNone(gauge, eligible[..i], pool, probe);
      }
    }
    assert eligible[..|eligible|] == eligible;
    FlagsMean(gauge, eligible, probe);
  }

  /** One cycle, whatever the order in which the workers take and finish the probes: flagged are
      exactly the eligible pools whose every strategy is blocked. */
  method RunRebalanceProbes(pools: seq<PoolRow>, concurrency: nat, run: seq<Step<ProbeResult>>, ghost probe: Target -> ProbeResult)
    returns (gauge: map<string, Label>)
    requires concurrency >= 1
    requires EligibleOf(pools) != [] ==> FinishedRun(TargetsOf(EligibleOf(pools)), probe, concurrency, run)
    ensures forall id :: id in gauge <==> exists p :: p in pools && Eligible(p) && p.id == id && AllBlocked(p, probe)
    ensures forall id :: id in gauge ==>
      exists p :: p in pools && Eligible(p) && p.id == id && AllBlocked(p, probe) && FirstBlocked(p, probe, gauge[id])
  {
    hide AllBlocked, FirstBlocked, Eligible, DeepInBreach, TargetsOf, ResultsFor, PoolAfter;
    gauge := map[];
    var eligible := EligibleForProbe(pools);
    if |eligible| == 0 { return; }
    var targets := BuildTargets(eligible);
    var s := RunPool(|targets|, concurrency, true, Answers(targets, probe), run);
    PoolGivesResults(targets, probe, concurrency, run);
    var results := seq(|targets|, k requires 0 <= k < |targets| => OrElse(s.results[k], Skipped));
    gauge := FlagBlockedPools(eligible, results, probe);
  }

  /** The gauge holds exactly the pools whose every strategy is blocked, each with the first label. */
  ghost predicate Flags(gauge: map<string, Label>, pools: seq<PoolRow>, probe: Target -> ProbeResult) {
    && (forall p :: p in pools && AllBlocked(p, probe) ==> p.id in gauge)
    && (forall id :: id in gauge ==> exists p :: p in pools && p.id == id && AllBlocked(p, probe) && FirstBlocked(p, probe, gauge[id]))
  }

  lemma NothingFlagged(none: seq<PoolRow>, probe: Target -> ProbeResult)
    requires none == []
    ensures Flags(map[], none, probe) && TargetsOf(none) == []
  {
  }

  lemma FlagOne(gauge: map<string, Label>, pools: seq<PoolRow>, p: PoolRow, probe: Target -> ProbeResult, shown: Label)
    requires Flags(gauge, pools, probe) && AllBlocked(p, probe) && FirstBlocked(p, probe, shown)
    ensures Flags(gauge[p.id := shown], pools + [p], probe)
  {
    hide AllBlocked, FirstBlocked;
    var after := gauge[p.id := shown];
    forall id | id in after ensures exists q :: q in pools + [p] && q.id == id && AllBlocked(q, probe) && FirstBlocked(q, probe, after[id]) {
      if id == p.id {
        assert p in pools + [p];
      } else {
        var q :| q in pools && q.id == id && AllBlocked(q, probe) && FirstBlocked(q, probe, gauge[id]);
        assert q in pools + [p];
      }
    }
  }

  lemma FlagNone(gauge: map<string, Label>, pools: seq<PoolRow>, p: PoolRow, probe: Target -> ProbeResult)
    requires Flags(gauge, pools, probe) && !AllBlocked(p, probe)
    ensures Flags(gauge, pools + [p], probe)
  {
    hide AllBlocked, FirstBlocked;
    forall id | id in gauge ensures exists q :: q in pools + [p] && q.id == id && AllBlocked(q, probe) && FirstBlocked(q, probe, gauge[id]) {
      var q :| q in pools && q.id == id && AllBlocked(q, probe) && FirstBlocked(q, probe, gauge[id]);
      assert q in pools + [p];
    }
  }

  lemma FlagsMean(gauge: map<string, Label>, pools: seq<PoolRow>, probe: Target -> ProbeResult)
    requires Flags(gauge, pools, probe)
    ensures forall id :: id in gauge <==> exists p :: p in pools && p.id == id && AllBlocked(p, probe)
    ensures forall id :: id in gauge ==> exists p :: p in pools && p.id == id && AllBlocked(p, probe) && FirstBlocked(p, probe, gauge[id])
  {
    hide AllBlocked, FirstBlocked;
  }

  /** The offset after pool `i` is where the targets of the next pool begin. */
  lemma TargetsStep(eligible: seq<PoolRow>, results: seq<ProbeResult>, probe: Target -> ProbeResult, i: nat)
    requires i < |eligible| && ResultsFor(TargetsOf(eligible), results, probe)
    ensures |TargetsOf(eligible[..i + 1])| == |TargetsOf(eligible[..i])| + |Strategies(eligible[i])| <= |results|
  {
    hide IsStrategyList;
    TargetsPrefix(eligible, i);
    assert eligible[..i + 1][..i] == eligible[..i] && eligible[..i + 1][i] == eligible[i];
  }

  lemma OutcomesLength(p: PoolRow, probe: Target -> ProbeResult, outcomes: seq<ProbeResult>)
    requires OutcomesOf(p, probe, outcomes) && Eligible(p)
    ensures |outcomes| > 0
  {
  }

  /** The label is that of the strategy with the lowest address. */
  ghost predicate FirstBlocked(p: PoolRow, probe: Target -> ProbeResult, shown: Label) {
    |Strategies(p)| > 0 && probe(Target(p, Strategies(p)[0])) == Blocked(shown.code, shown.message)
  }

  ghost predicate OutcomesOf(p: PoolRow, probe: Target -> ProbeResult, outcomes: seq<ProbeResult>) {
    |outcomes| == |Strategies(p)| && forall j :: 0 <= j < |outcomes| ==> outcomes[j] == probe(Target(p, Strategies(p)[j]))
  }

  lemma OutcomesArePools(eligible: seq<PoolRow>, results: seq<ProbeResult>, probe: Target -> ProbeResult, i: nat, outcomes: seq<ProbeResult>)
    requires i < |eligible| && ResultsFor(TargetsOf(eligible), results, probe)
    requires var n := |TargetsOf(eligible[..i])|;
      n + |Strategies(eligible[i])| <= |results| && outcomes == results[n..n + |Strategies(eligible[i])|]
    ensures OutcomesOf(eligible[i], probe, outcomes)
  {
    hide IsStrategyList, TargetsOf;
    TargetsPrefix(eligible, i);
    var n := |TargetsOf(eligible[..i])|;
    forall j | 0 <= j < |outcomes| ensures outcomes[j] == probe(Target(eligible[i], Strategies(eligible[i])[j])) {
      InPrefix(TargetsOf(eligible[..i]), OwnTargets(eligible[i]), TargetsOf(eligible), j);
    }
  }

  lemma InPrefix<T>(a: seq<T>, b: seq<T>, all: seq<T>, j: nat)
    requires a + b <= all && j < |b|
    ensures all[|a| + j] == b[j]
  {
    assert all[|a| + j] == (a + b)[|a| + j];
  }

  lemma BlockedOutcomes(p: PoolRow, probe: Target -> ProbeResult, outcomes: seq<ProbeResult>)
    requires OutcomesOf(p, probe, outcomes) && |outcomes| > 0 && forall r :: r in outcomes ==> r.Blocked?
    ensures AllBlocked(p, probe) && FirstBlocked(p, probe, Label(outcomes[0].code, outcomes[0].message))
  {
    hide IsStrategyList;
    forall s | s in Strategies(p) ensures probe(Target(p, s)).Blocked? {
      var j :| 0 <= j < |Strategies(p)| && Strategies(p)[j] == s;
      assert outcomes[j] in outcomes;
    }
    assert outcomes[0] in outcomes;
  }

  lemma UnblockedOutcomes(p: PoolRow, probe: Target -> ProbeResult, outcomes: seq<ProbeResult>)
    requires OutcomesOf(p, probe, outcomes) && exists r :: r in outcomes && !r.Blocked?
    ensures !AllBlocked(p, probe)
  {
    hide IsStrategyList;
    var j :| 0 <= j < |outcomes| && !outcomes[j].Blocked?;
    assert Strategies(p)[j] in Strategies(p);
  }
}
