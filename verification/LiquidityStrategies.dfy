/** Active liquidity strategies of a pool and the single legacy pointer kept beside them. */
module LiquidityStrategies {
  import opened Ordering
  import opened Outcomes

  datatype Kind = OpenKind | Cdp | Reserve | UnknownKind

  datatype StrategyKey = StrategyKey(poolId: string, address: string)
  datatype StrategyRow = StrategyRow(kind: Kind, active: bool, addedAtBlock: int, addedAtTimestamp: int, updatedAtBlock: int, updatedAtTimestamp: int)
  datatype PoolRow = PoolRow(rebalancerAddress: string, updatedAtBlock: int, updatedAtTimestamp: int)

  /** One authorization transition. `lookedUp` is what the address book knows of the strategy. */
  datatype Change = Change(poolId: string, address: string, active: bool, explicitKind: Option<Kind>, lookedUp: Option<Kind>, block: int, timestamp: int)

  type Rows = map<StrategyKey, StrategyRow>

  function ResolvedKind(explicitKind: Option<Kind>, lookedUp: Option<Kind>, existing: Option<StrategyRow>): Kind {
    var observed := if explicitKind.Some? then explicitKind.value else OrElse(lookedUp, UnknownKind);
    if observed == UnknownKind && existing.Some? then existing.value.kind else observed
  }

  function NextRow(existing: Option<StrategyRow>, c: Change): StrategyRow {
    StrategyRow(ResolvedKind(c.explicitKind, c.lookedUp, existing), c.active,
      if existing.Some? then existing.value.addedAtBlock else c.block,
      if existing.Some? then existing.value.addedAtTimestamp else c.timestamp,
      c.block, c.timestamp)
  }

  predicate ActiveAt(rows: Rows, poolId: string, address: string) {
    StrategyKey(poolId, address) in rows && rows[StrategyKey(poolId, address)].active
  }

  /** Later block first; among equals the lower address. */
  predicate ComesFirst(rows: Rows, a: StrategyKey, b: StrategyKey)
    requires a in rows && b in rows
  {
    rows[a].updatedAtBlock > rows[b].updatedAtBlock ||
    (rows[a].updatedAtBlock == rows[b].updatedAtBlock && StringLeq(a.address, b.address))
  }

  predicate Remaining(rows: Rows, poolId: string, disabled: string, k: StrategyKey) {
    k in rows && k.poolId == poolId && rows[k].active && k.address != disabled
  }

  /** The first remaining active strategy, if any. */
  ghost predicate IsFallback(rows: Rows, poolId: string, disabled: string, fallback: Option<StrategyKey>) {
    match fallback
    case None => forall k :: !Remaining(rows, poolId, disabled, k)
    case Some(best) => Remaining(rows, poolId, disabled, best) && forall k :: Remaining(rows, poolId, disabled, k) ==> ComesFirst(rows, best, k)
  }

  lemma FallbackIsUnique(rows: Rows, poolId: string, disabled: string, a: Option<StrategyKey>, b: Option<StrategyKey>)
    requires IsFallback(rows, poolId, disabled, a) && IsFallback(rows, poolId, disabled, b)
    ensures a == b
  {
    hide StringLeq;
    if a.Some? && b.Some? {
      StringOrder();
      assert ComesFirst(rows, a.value, b.value) && ComesFirst(rows, b.value, a.value);
    }
  }

  /** The pointer after one transition: the strategy just activated; else, if it named the one
      just deactivated, the first that remains; else unchanged. */
  ghost predicate NextPointer(rows: Rows, pointer: string, c: Change, next: string) {
    var address := AsAddress(c.address);
    if c.active then next == address
    else if AsAddress(pointer) == address then
      exists fallback :: IsFallback(rows, c.poolId, address, fallback) && next == (if fallback.Some? then fallback.value.address else "")
    else next == pointer
  }

  class StrategyStore {
    var strategies: Rows
    var pools: map<string, PoolRow>

    constructor (pools: map<string, PoolRow>)
      ensures this.pools == pools && strategies == map[]
    {
      this.pools := pools;
      strategies := map[];
    }

    method FallbackLegacyRebalancer(rows: Rows, poolId: string, disabled: string) returns (address: string)
      ensures exists fallback :: IsFallback(rows, poolId, disabled, fallback) && address == (if fallback.Some? then fallback.value.address else "")
    {
      hide StringLeq;
      StringOrder();
      var todo := set k | k in rows && Remaining(rows, poolId, disabled, k);
      var best: Option<StrategyKey> := None;
      while todo != {}
        invariant forall k :: k in todo ==> Remaining(rows, poolId, disabled, k)
        invariant best.None? ==> forall k :: Remaining(rows, poolId, disabled, k) ==> k in todo
        invariant best.Some? ==> Remaining(rows, poolId, disabled, best.value)
        invariant best.Some? ==> forall k :: Remaining(rows, poolId, disabled, k) && k !in todo ==> ComesFirst(rows, best.value, k)
        decreases |todo|
      {
        var k :| k in todo;
        todo := todo - {k};
        if best.None? || !ComesFirst(rows, best.value, k) { best := Some(k); }
      }
      assert IsFallback(rows, poolId, disabled, best);
      address := if best.Some? then best.value.address else "";
    }

    method SyncPoolLiquidityStrategy(c: Change)
      modifies this
      ensures
        var key := StrategyKey(c.poolId, AsAddress(c.address));
        strategies == old(strategies)[key := NextRow(Lookup(old(strategies), key), c)]
      ensures pools.Keys == old(pools).Keys
      ensures forall id :: id in pools && id != c.poolId ==> pools[id] == old(pools)[id]
      ensures c.poolId in pools ==> NextPointer(old(strategies), old(pools)[c.poolId].rebalancerAddress, c, pools[c.poolId].rebalancerAddress)
      ensures c.poolId in pools ==>
        pools[c.poolId] == if pools[c.poolId].rebalancerAddress == old(pools)[c.poolId].rebalancerAddress then old(pools)[c.poolId]
                           else PoolRow(pools[c.poolId].rebalancerAddress, c.block, c.timestamp)
    {
      hide AsAddress, StringLeq, ComesFirst;
      var address := AsAddress(c.address);
      var key := StrategyKey(c.poolId, address);
      var existing := Lookup(strategies, key);
      var activeRows := strategies;
      strategies := strategies[key := NextRow(existing, c)];
      if c.poolId !in pools { return; }
      var pool := pools[c.poolId];
      var legacy := pool.rebalancerAddress;
      if c.active {
        legacy := address;
      } else if AsAddress(pool.rebalancerAddress) == address {
        legacy := FallbackLegacyRebalancer(activeRows, c.poolId, address);
      }
      if legacy == pool.rebalancerAddress { return; }
      pools := pools[c.poolId := PoolRow(legacy, c.block, c.timestamp)];
    }
  }

  // ---------------------------------------------------------------- the pointer over whole runs

  /** Empty exactly when no strategy is active; otherwise an active one updated last. */
  ghost predicate PointerRight(rows: Rows, poolId: string, pointer: string) {
    && (pointer == "" <==> forall a :: !ActiveAt(rows, poolId, a))
    && (pointer != "" ==>
          && AsAddress(pointer) == pointer && ActiveAt(rows, poolId, pointer)
          && forall a :: ActiveAt(rows, poolId, a) ==>
               rows[StrategyKey(poolId, a)].updatedAtBlock <= rows[StrategyKey(poolId, pointer)].updatedAtBlock)
  }

  /** Rows so far: real, lower-case addresses, none from a later block. */
  ghost predicate RowsUpTo(rows: Rows, block: int) {
    forall k :: k in rows ==> rows[k].updatedAtBlock <= block && k.address != "" && AsAddress(k.address) == k.address
  }

  ghost function RowsAfter(rows: Rows, c: Change): Rows {
    var key := StrategyKey(c.poolId, AsAddress(c.address));
    rows[key := NextRow(Lookup(rows, key), c)]
  }

  ghost function RowsOf(changes: seq<Change>): Rows {
    if changes == [] then map[] else RowsAfter(RowsOf(changes[..|changes| - 1]), changes[|changes| - 1])
  }

  /** The changes of one strategy. */
  function OwnChanges(changes: seq<Change>, k: StrategyKey): seq<Change> {
    if changes == [] then [] else
      var c := changes[|changes| - 1];
      OwnChanges(changes[..|changes| - 1], k) + (if c.poolId == k.poolId && AsAddress(c.address) == k.address then [c] else [])
  }

  /** The latest kind that a change knew: its own, or else the address book's. */
  function LatestKind(own: seq<Change>): Kind {
    if own == [] then UnknownKind else
      var c := own[|own| - 1];
      var seen := match c.explicitKind case Some(kind) => kind case None => OrElse(c.lookedUp, UnknownKind);
      if seen.UnknownKind? then LatestKind(own[..|own| - 1]) else seen
  }

  /** A row tells the first and the last of its strategy's changes, and the latest known kind. */
  lemma {:induction false} RowOfChanges(changes: seq<Change>, k: StrategyKey)
    ensures
      var own := OwnChanges(changes, k);
      && (k in RowsOf(changes) <==> own != [])
      && (own != [] ==>
            var first, last := own[0], own[|own| - 1];
            RowsOf(changes)[k] == StrategyRow(LatestKind(own), last.active, first.block, first.timestamp, last.block, last.timestamp))
  {
    hide AsAddress;
    if changes != [] {
      var init, c := changes[..|changes| - 1], changes[|changes| - 1];
      RowOfChanges(init, k);
      var own := OwnChanges(init, k);
      if k == StrategyKey(c.poolId, AsAddress(c.address)) {
        assert OwnChanges(changes, k) == own + [c];
        assert (own + [c])[..|own|] == own;
      } else {
        assert OwnChanges(changes, k) == own;
      }
    }
  }

  lemma ActiveAfter(rows: Rows, c: Change, poolId: string, a: string)
    ensures ActiveAt(RowsAfter(rows, c), poolId, a) <==>
      if poolId == c.poolId && a == AsAddress(c.address) then c.active else ActiveAt(rows, poolId, a)
    ensures !(poolId == c.poolId && a == AsAddress(c.address)) && StrategyKey(poolId, a) in rows ==>
      StrategyKey(poolId, a) in RowsAfter(rows, c) && RowsAfter(rows, c)[StrategyKey(poolId, a)] == rows[StrategyKey(poolId, a)]
    ensures poolId == c.poolId && a == AsAddress(c.address) ==> RowsAfter(rows, c)[StrategyKey(poolId, a)].updatedAtBlock == c.block
  {
    hide AsAddress;
  }

  /** No transition forgets a strategy, when it was added, or a kind once known. */
  lemma RowsRemember(rows: Rows, c: Change, k: StrategyKey)
    requires k in rows
    ensures k in RowsAfter(rows, c)
    ensures
      var was, now := rows[k], RowsAfter(rows, c)[k];
      && now.addedAtBlock == was.addedAtBlock && now.addedAtTimestamp == was.addedAtTimestamp
      && (was.kind != UnknownKind ==> now.kind != UnknownKind)
      && (now.kind != was.kind ==> now.kind != UnknownKind && (c.explicitKind == Some(now.kind) || c.lookedUp == Some(now.kind)))
  {
    hide AsAddress;
  }

  /** One transition keeps the pointer of every pool right. */
  lemma PointerStep(rows: Rows, c: Change, poolId: string, pointer: string, next: string)
    requires RowsUpTo(rows, c.block) && c.address != "" && PointerRight(rows, poolId, pointer)
    requires if poolId == c.poolId then NextPointer(rows, pointer, c, next) else next == pointer
    ensures PointerRight(RowsAfter(rows, c), poolId, next) && RowsUpTo(RowsAfter(rows, c), c.block)
  {
    hide AsAddress, StringLeq, RowsAfter;
    var address := AsAddress(c.address);
    AddressKept(c.address);
    UpToAfter(rows, c);
    forall a ensures
      && (ActiveAt(RowsAfter(rows, c), poolId, a) <==> if poolId == c.poolId && a == address then c.active else ActiveAt(rows, poolId, a))
      && (!(poolId == c.poolId && a == address) && StrategyKey(poolId, a) in rows ==>
            StrategyKey(poolId, a) in RowsAfter(rows, c) && RowsAfter(rows, c)[StrategyKey(poolId, a)] == rows[StrategyKey(poolId, a)])
      && (poolId == c.poolId && a == address ==>
            StrategyKey(poolId, a) in RowsAfter(rows, c) && RowsAfter(rows, c)[StrategyKey(poolId, a)].updatedAtBlock == c.block)
    { ActiveAfter(rows, c, poolId, a); RowThere(rows, c); }
    if poolId != c.poolId {
      assert PointerRight(RowsAfter(rows, c), poolId, next);
    } else if c.active {
      forall a | ActiveAt(rows, poolId, a) ensures rows[StrategyKey(poolId, a)].updatedAtBlock <= c.block {}
      assert ActiveAt(RowsAfter(rows, c), poolId, address);
      assert PointerRight(RowsAfter(rows, c), poolId, next);
    } else if AsAddress(pointer) != address {
      assert pointer != "" ==> ActiveAt(RowsAfter(rows, c), poolId, pointer);
      assert PointerRight(RowsAfter(rows, c), poolId, next);
    } else {
      var fallback :| IsFallback(rows, c.poolId, address, fallback) && next == (if fallback.Some? then fallback.value.address else "");
      FallbackStep(rows, c, fallback, address);
    }
  }

  lemma RowThere(rows: Rows, c: Change)
    ensures StrategyKey(c.poolId, AsAddress(c.address)) in RowsAfter(rows, c)
  {
    hide AsAddress;
  }

  lemma AddressKept(a: string)
    ensures AsAddress(AsAddress(a)) == AsAddress(a) && (a != "" <==> AsAddress(a) != "")
  {
    assert |AsAddress(a)| == |a|;
  }

  lemma UpToAfter(rows: Rows, c: Change)
    requires RowsUpTo(rows, c.block) && c.address != ""
    ensures RowsUpTo(RowsAfter(rows, c), c.block)
  {
    hide AsAddress;
    AddressKept(c.address);
  }

  /** The fallback is an active strategy other than the disabled one, and updated last among those. */
  lemma FallbackStep(rows: Rows, c: Change, fallback: Option<StrategyKey>, address: string)
    requires IsFallback(rows, c.poolId, address, fallback)
    ensures fallback.None? ==> forall a :: ActiveAt(rows, c.poolId, a) ==> a == address
    ensures fallback.Some? ==>
      && fallback.value.address != address && ActiveAt(rows, c.poolId, fallback.value.address)
      && fallback.value == StrategyKey(c.poolId, fallback.value.address)
      && forall a :: ActiveAt(rows, c.poolId, a) && a != address ==> rows[StrategyKey(c.poolId, a)].updatedAtBlock <= rows[fallback.value].updatedAtBlock
  {
    hide StringLeq;
    forall a | ActiveAt(rows, c.poolId, a) && a != address ensures Remaining(rows, c.poolId, address, StrategyKey(c.poolId, a)) {}
    if fallback.Some? { assert fallback.value == StrategyKey(fallback.value.poolId, fallback.value.address); }
  }

  /** Transitions applied one after another to a fresh store whose pools have no pointer yet. */
  method Replay(pools: map<string, PoolRow>, changes: seq<Change>) returns (store: StrategyStore)
    requires forall id :: id in pools ==> pools[id].rebalancerAddress == ""
    requires forall i :: 0 <= i < |changes| ==> changes[i].address != ""
    requires forall i, j :: 0 <= i < j < |changes| ==> changes[i].block <= changes[j].block
    ensures fresh(store) && store.pools.Keys == pools.Keys && store.strategies == RowsOf(changes)
    ensures forall id :: id in pools ==> PointerRight(store.strategies, id, store.pools[id].rebalancerAddress)
  {
    hide PointerRight, NextPointer, RowsUpTo, NextRow;
    store := new StrategyStore(pools);
    forall id | id in pools ensures PointerRight(store.strategies, id, "") { NothingActive(id); }
    NoRows(if |changes| > 0 then changes[0].block else 0);
    for i := 0 to |changes|
      invariant fresh(store) && store.pools.Keys == pools.Keys && store.strategies == RowsOf(changes[..i])
      invariant forall id :: id in pools ==> PointerRight(store.strategies, id, store.pools[id].rebalancerAddress)
      invariant i < |changes| ==> RowsUpTo(store.strategies, changes[i].block)
    {
      ghost var rows, before := store.strategies, store.pools;
      assert changes[..i + 1][..i] == changes[..i] && changes[..i + 1][i] == changes[i];
      store.SyncPoolLiquidityStrategy(changes[i]);
      forall id | id in pools ensures PointerRight(store.strategies, id, store.pools[id].rebalancerAddress) {
        PointerStep(rows, changes[i], id, before[id].rebalancerAddress, store.pools[id].rebalancerAddress);
      }
      UpToAfter(rows, changes[i]);
      if i + 1 < |changes| { LaterBlock(store.strategies, changes[i].block, changes[i + 1].block); }
    }
    assert changes[..|changes|] == changes;
  }

  lemma NothingActive(poolId: string)
    ensures PointerRight(map[], poolId, "")
  {
  }

  lemma NoRows(block: int)
    ensures RowsUpTo(map[], block)
  {
  }

  lemma LaterBlock(rows: Rows, block: int, later: int)
    requires RowsUpTo(rows, block) && block <= later
    ensures RowsUpTo(rows, later)
  {
  }
}
