/** Halts of rate feeds and the denormalised flag on pools. */
module Breakers {
  import opened Arithmetic

  datatype BreakerKind = MedianDelta | ValueDelta | MarketHours
  datatype BreakerKey = BreakerKey(chain: int, address: string)
  datatype Breaker = Breaker(kind: BreakerKind, defaultCooldown: int, defaultThreshold: int, activatesTradingMode: int, removed: bool)
  datatype ConfigKey = ConfigKey(chain: int, breaker: string, feed: string)
  datatype Config = Config(
    enabled: bool, tripped: bool, tradingMode: int, cooldownTime: int, threshold: int, lastStatusUpdatedAt: int, cooldownEndsAt: int)
  datatype Edge = Edge(chain: int, feed: string, dependsOn: string)
  datatype Pool = Pool(chain: int, feed: string, isVirtual: bool, breakerTripped: bool)

  /** Everything a halt is derived from. */
  datatype Graph = Graph(breakers: map<BreakerKey, Breaker>, configs: map<ConfigKey, Config>, edges: set<Edge>)

  function BreakerOf(k: ConfigKey): BreakerKey { BreakerKey(k.chain, k.breaker) }

  /** An enabled, tripped config of a known breaker that is not a trading-hours one. */
  predicate Halts(g: Graph, k: ConfigKey) {
    && k in g.configs && g.configs[k].enabled && g.configs[k].tripped
    && BreakerOf(k) in g.breakers && g.breakers[BreakerOf(k)].kind != MarketHours
  }

  ghost predicate OwnHalted(g: Graph, chain: int, feed: string) {
    exists k :: k in g.configs && k.chain == chain && k.feed == feed && Halts(g, k)
  }

  /** Own halt or that of a direct dependency; one level only. */
  ghost predicate Halted(g: Graph, chain: int, feed: string) {
    OwnHalted(g, chain, feed) || exists e :: e in g.edges && e.chain == chain && e.feed == feed && OwnHalted(g, chain, e.dependsOn)
  }

  ghost predicate FlagRight(g: Graph, p: Pool) {
    !p.isVirtual && p.feed != "" ==> p.breakerTripped == Halted(g, p.chain, p.feed)
  }

  /** Every non-virtual pool with a feed carries its feed's halt. */
  ghost predicate FlagsAgree(g: Graph, pools: map<string, Pool>) {
    forall id :: id in pools ==> FlagRight(g, pools[id])
  }

  /** The feeds one sync recomputes: the feed itself and those that depend on it. */
  ghost predicate Recomputed(g: Graph, chain: int, feed: string, p: Pool) {
    p.chain == chain && (p.feed == feed || Edge(chain, p.feed, feed) in g.edges)
  }

  ghost function Synced(g: Graph, pools: map<string, Pool>, chain: int, feed: string): map<string, Pool> {
    map id | id in pools :: SyncedPool(g, pools[id], chain, feed)
  }

  ghost function SyncedPool(g: Graph, p: Pool, chain: int, feed: string): Pool {
    if Recomputed(g, chain, feed, p) && !p.isVirtual then p.(breakerTripped := Halted(g, p.chain, p.feed)) else p
  }

  /** Every config has its breaker's row. */
  ghost predicate BreakersKnown(g: Graph) {
    forall k :: k in g.configs ==> BreakerOf(k) in g.breakers
  }

  /** Only rows of `feed` differ: its configs, and the edges that start at it. Breakers may be
      added, or change in anything but their kind. */
  ghost predicate DiffersOnlyAt(before: Graph, after: Graph, chain: int, feed: string) {
    && (forall b :: b in before.breakers ==> b in after.breakers && after.breakers[b].kind == before.breakers[b].kind)
    && (forall k: ConfigKey :: !(k.chain == chain && k.feed == feed) ==>
          (k in before.configs <==> k in after.configs) && (k in before.configs ==> SameStatus(before.configs[k], after.configs[k])))
    && (forall e: Edge :: !(e.chain == chain && e.feed == feed) ==> (e in before.edges <==> e in after.edges))
  }

  /** Equal in what a halt reads. */
  predicate SameStatus(a: Config, b: Config) { a.enabled == b.enabled && a.tripped == b.tripped }

  lemma OwnHaltElsewhere(before: Graph, after: Graph, chain: int, feed: string, c: int, f: string)
    requires DiffersOnlyAt(before, after, chain, feed) && BreakersKnown(before) && !(c == chain && f == feed)
    ensures OwnHalted(before, c, f) == OwnHalted(after, c, f)
  {
    forall k: ConfigKey | k.chain == c && k.feed == f ensures Halts(before, k) == Halts(after, k) {
      if k in before.configs { assert BreakerOf(k) in before.breakers; }
    }
  }

  /** A feed whose halt can move is recomputed by the one-hop fan-out, cycles or not. */
  lemma HaltElsewhere(before: Graph, after: Graph, chain: int, feed: string, p: Pool)
    requires DiffersOnlyAt(before, after, chain, feed) && BreakersKnown(before) && !Recomputed(after, chain, feed, p)
    ensures Halted(before, p.chain, p.feed) == Halted(after, p.chain, p.feed)
  {
    hide OwnHalted, BreakersKnown;
    OwnHaltElsewhere(before, after, chain, feed, p.chain, p.feed);
    forall e | (e in before.edges || e in after.edges) && e.chain == p.chain && e.feed == p.feed
      ensures (e in before.edges <==> e in after.edges) && OwnHalted(before, p.chain, e.dependsOn) == OwnHalted(after, p.chain, e.dependsOn)
    {
      assert e == Edge(e.chain, e.feed, e.dependsOn);
      OwnHaltElsewhere(before, after, chain, feed, p.chain, e.dependsOn);
    }
  }

  /** If all flags were right and then only `feed` changed, one sync of `feed` makes all flags
      right again, on every feed. */
  lemma SyncRestores(before: Graph, after: Graph, pools: map<string, Pool>, chain: int, feed: string)
    requires FlagsAgree(before, pools) && BreakersKnown(before) && DiffersOnlyAt(before, after, chain, feed)
    ensures FlagsAgree(after, Synced(after, pools, chain, feed))
  {
    hide DiffersOnlyAt, Halted, Recomputed, BreakersKnown;
    forall id | id in pools ensures FlagRight(after, SyncedPool(after, pools[id], chain, feed)) {
      assert FlagRight(before, pools[id]);
      if !Recomputed(after, chain, feed, pools[id]) { HaltElsewhere(before, after, chain, feed, pools[id]); }
    }
  }

  /** Syncing again changes nothing. */
  lemma SyncIsIdempotent(g: Graph, pools: map<string, Pool>, chain: int, feed: string)
    ensures Synced(g, Synced(g, pools, chain, feed), chain, feed) == Synced(g, pools, chain, feed)
  {
    hide Halted;
  }

  // ---------------------------------------------------------------- removal of a feed

  /** The feed's configs disabled and its own dependency edges gone. */
  function FeedRemoved(g: Graph, chain: int, feed: string): Graph {
    Graph(g.breakers,
          map k | k in g.configs :: if k.chain == chain && k.feed == feed then g.configs[k].(enabled := false) else g.configs[k],
          set e | e in g.edges && !(e.chain == chain && e.feed == feed))
  }

  lemma RemovalUnhalts(g: Graph, pools: map<string, Pool>, chain: int, feed: string)
    requires FlagsAgree(g, pools) && BreakersKnown(g)
    ensures
      var after := FeedRemoved(g, chain, feed);
      && FlagsAgree(after, Synced(after, pools, chain, feed)) && !Halted(after, chain, feed)
      && forall e :: e in g.edges && e.dependsOn == feed && e.feed != feed ==> e in after.edges
  {
    var after := FeedRemoved(g, chain, feed);
    assert DiffersOnlyAt(g, after, chain, feed);
    SyncRestores(g, after, pools, chain, feed);
  }

  // ---------------------------------------------------------------- dependency edges and hydration

  /** The edges of `feed` replaced by the given set; everybody else's kept. */
  function Reconciled(edges: set<Edge>, chain: int, feed: string, wanted: set<string>): set<Edge> {
    (set e | e in edges && !(e.chain == chain && e.feed == feed)) + (set d | d in wanted :: Edge(chain, feed, d))
  }

  lemma ReconciledEdges(edges: set<Edge>, chain: int, feed: string, wanted: set<string>)
    ensures forall d :: Edge(chain, feed, d) in Reconciled(edges, chain, feed, wanted) <==> d in wanted
    ensures forall e: Edge :: !(e.chain == chain && e.feed == feed) ==> (e in Reconciled(edges, chain, feed, wanted) <==> e in edges)
  {
  }

  lemma FlagOf(g: Graph, pools: map<string, Pool>, id: string)
    requires FlagsAgree(g, pools) && id in pools
    ensures FlagRight(g, pools[id])
  {
  }

  lemma FlagsAgreeMeans(g: Graph, pools: map<string, Pool>)
    ensures FlagsAgree(g, pools) <==> forall id :: id in pools ==> FlagRight(g, pools[id])
  {
  }

  // ---------------------------------------------------------------- removal of a breaker

  /** The breaker marked as removed and all its configs disabled. */
  function BreakerRemovedFrom(g: Graph, key: BreakerKey): Graph {
    g.(breakers := if key in g.breakers then g.breakers[key := g.breakers[key].(removed := true)] else g.breakers,
       configs := map k | k in g.configs :: if BreakerOf(k) == key then g.configs[k].(enabled := false) else g.configs[k])
  }

  /** The feeds on which the breaker was enabled. */
  function FeedsOf(g: Graph, key: BreakerKey): set<string> {
    set k | k in g.configs && BreakerOf(k) == key && g.configs[k].enabled :: k.feed
  }

  ghost predicate RecomputedByAny(g: Graph, chain: int, feeds: set<string>, p: Pool) {
    exists f :: f in feeds && Recomputed(g, chain, f, p)
  }

  /** One sync for each of the feeds. */
  ghost function SyncedAll(g: Graph, pools: map<string, Pool>, chain: int, feeds: set<string>): map<string, Pool> {
    map id | id in pools ::
      if RecomputedByAny(g, chain, feeds, pools[id]) && !pools[id].isVirtual
      then pools[id].(breakerTripped := Halted(g, pools[id].chain, pools[id].feed)) else pools[id]
  }

  lemma SyncOneMore(g: Graph, pools: map<string, Pool>, chain: int, feeds: set<string>, feed: string)
    ensures Synced(g, SyncedAll(g, pools, chain, feeds), chain, feed) == SyncedAll(g, pools, chain, feeds + {feed})
  {
    hide Halted, Recomputed;
    forall id | id in pools
      ensures RecomputedByAny(g, chain, feeds + {feed}, pools[id]) <==> RecomputedByAny(g, chain, feeds, pools[id]) || Recomputed(g, chain, feed, pools[id])
    {
      if Recomputed(g, chain, feed, pools[id]) { assert feed in feeds + {feed}; }
      if f :| f in feeds && Recomputed(g, chain, f, pools[id]) { assert f in feeds + {feed}; }
    }
    forall id | id in pools ensures RecomputedSame(g, chain, feed, pools[id], SyncedAll(g, pools, chain, feeds)[id]) { SameRecomputed(g, chain, feed, pools[id], SyncedAll(g, pools, chain, feeds)[id]); }
  }

  ghost predicate RecomputedSame(g: Graph, chain: int, feed: string, p: Pool, q: Pool) {
    Recomputed(g, chain, feed, p) == Recomputed(g, chain, feed, q)
  }

  lemma SameRecomputed(g: Graph, chain: int, feed: string, p: Pool, q: Pool)
    requires p.chain == q.chain && p.feed == q.feed
    ensures RecomputedSame(g, chain, feed, p, q)
  {
  }

  lemma NotRecomputed(g: Graph, chain: int, feeds: set<string>, p: Pool, f: string)
    requires !RecomputedByAny(g, chain, feeds, p)
    ensures f in feeds ==> !Recomputed(g, chain, f, p)
  {
  }

  lemma HaltWithoutBreaker(g: Graph, key: BreakerKey, c: int, f: string)
    requires BreakersKnown(g) && !(c == key.chain && f in FeedsOf(g, key))
    ensures OwnHalted(BreakerRemovedFrom(g, key), c, f) == OwnHalted(g, c, f)
  {
    var after := BreakerRemovedFrom(g, key);
    forall k: ConfigKey | k.chain == c && k.feed == f ensures Halts(g, k) == Halts(after, k) {
      if k in g.configs && BreakerOf(k) == key { assert k.chain == key.chain && !g.configs[k].enabled; }
    }
  }

  /** Removing a breaker and syncing the feeds it was enabled on keeps all flags right. */
  lemma BreakerRemovalRestores(g: Graph, pools: map<string, Pool>, key: BreakerKey)
    requires FlagsAgree(g, pools) && BreakersKnown(g)
    ensures
      var after := BreakerRemovedFrom(g, key);
      BreakersKnown(after) && FlagsAgree(after, SyncedAll(after, pools, key.chain, FeedsOf(g, key)))
  {
    hide OwnHalted, FeedsOf;
    var after, feeds := BreakerRemovedFrom(g, key), FeedsOf(g, key);
    forall id | id in pools ensures FlagRight(after, SyncedAll(after, pools, key.chain, feeds)[id]) {
      var p := pools[id];
      FlagOf(g, pools, id);
      if !RecomputedByAny(after, key.chain, feeds, p) {
        assert !(p.chain == key.chain && p.feed in feeds) by { NotRecomputed(after, key.chain, feeds, p, p.feed); }
        HaltWithoutBreaker(g, key, p.chain, p.feed);
        forall e | e in g.edges && e.chain == p.chain && e.feed == p.feed ensures OwnHalted(after, p.chain, e.dependsOn) == OwnHalted(g, p.chain, e.dependsOn) {
          assert e == Edge(p.chain, p.feed, e.dependsOn);
          assert !(p.chain == key.chain && e.dependsOn in feeds) by { NotRecomputed(after, key.chain, feeds, p, e.dependsOn); }
          HaltWithoutBreaker(g, key, p.chain, e.dependsOn);
        }
      }
    }
  }

  // ---------------------------------------------------------------- feed assignment

  /** The flag a pool gets when its feed is assigned: recomputed only on the first assignment. */
  ghost function TrippedOnFeedAssign(g: Graph, existing: Pool, nextFeed: string): bool {
    if existing.isVirtual then existing.breakerTripped
    else if existing.feed != "" || nextFeed == "" then existing.breakerTripped
    else Halted(g, existing.chain, nextFeed)
  }

  /** A first assignment gives the right flag; a reassignment is right exactly when both feeds
      are halted alike. */
  lemma AssignmentIsRight(g: Graph, existing: Pool, nextFeed: string)
    requires FlagRight(g, existing) && !existing.isVirtual && nextFeed != ""
    ensures
      var moved := existing.(feed := nextFeed, breakerTripped := TrippedOnFeedAssign(g, existing, nextFeed));
      FlagRight(g, moved) <==>
        existing.feed == "" || Halted(g, existing.chain, existing.feed) == Halted(g, existing.chain, nextFeed)
  {
    hide Halted;
  }

  // ---------------------------------------------------------------- cooldowns and the moving average

  function EffectiveCooldown(defaultCooldown: int, perFeed: int): int {
    if perFeed > 0 then perFeed else defaultCooldown
  }

  function ComputeCooldownEndsAt(lastStatusUpdatedAt: int, cooldown: int): int {
    if cooldown <= 0 then 0 else lastStatusUpdatedAt + cooldown
  }

  /** The derived column follows from the status time and the effective cooldown. */
  predicate CooldownRight(b: Breaker, c: Config) {
    var cooldown := if c.cooldownTime > 0 then c.cooldownTime else b.defaultCooldown;
    c.cooldownEndsAt == if cooldown > 0 then c.lastStatusUpdatedAt + cooldown else 0
  }

  ghost predicate CooldownsRight(g: Graph) {
    forall k :: k in g.configs && BreakerOf(k) in g.breakers ==> CooldownRight(g.breakers[BreakerOf(k)], g.configs[k])
  }

  const FIXED_1 := 1_000_000_000_000_000_000_000_000

  function NextMedianEMA(currentMedian: nat, previousEMA: nat, smoothingFactor: int): int {
    if previousEMA == 0 then currentMedian
    else
      var sf := if smoothingFactor > 0 then smoothingFactor else FIXED_1;
      var total := currentMedian * sf + previousEMA * (FIXED_1 - sf);
      if total >= 0 then total / FIXED_1 else -(-total / FIXED_1)
  }

  /** The weighted mean with 24 decimals of weight, cut to a whole number toward zero. */
  lemma EmaIs(currentMedian: nat, previousEMA: nat, smoothingFactor: int)
    ensures
      var next, one := NextMedianEMA(currentMedian, previousEMA, smoothingFactor), 1_000_000_000_000_000_000_000_000;
      var sf := if smoothingFactor > 0 then smoothingFactor else one;
      var total := currentMedian * sf + previousEMA * (one - sf);
      && (previousEMA == 0 ==> next == currentMedian)
      && (previousEMA > 0 && total >= 0 ==> next * one <= total < (next + 1) * one)
      && (previousEMA > 0 && total < 0 ==> (next - 1) * one < total <= next * one)
  {
    var sf := if smoothingFactor > 0 then smoothingFactor else FIXED_1;
    var total := currentMedian * sf + previousEMA * (FIXED_1 - sf);
    QuotientAtMost(total, FIXED_1, 0);
    QuotientAtMost(-total, FIXED_1, 0);
  }

  lemma ConvexBounds(a: nat, b: nat, sf: nat, one: nat)
    requires sf <= one && a <= b
    ensures a * one <= a * sf + b * (one - sf) <= b * one
    ensures a * one <= b * sf + a * (one - sf) <= b * one
  {
    var rest := one - sf;
    MultiplyMonotone(a, b, rest);
    MultiplyMonotone(a, b, sf);
    Distribute(a, sf, rest);
    Distribute(b, sf, rest);
  }

  /** The average stays between the median and its old value, so it never returns to the
      unseeded 0 once it has been seeded by a positive median. */
  lemma EmaIsConvex(currentMedian: nat, previousEMA: nat, smoothingFactor: int)
    requires smoothingFactor <= FIXED_1
    ensures
      var next := NextMedianEMA(currentMedian, previousEMA, smoothingFactor);
      && (previousEMA == 0 ==> next == currentMedian)
      && (previousEMA > 0 ==>
            if currentMedian <= previousEMA then currentMedian <= next <= previousEMA else previousEMA <= next <= currentMedian)
  {
    if previousEMA > 0 {
      var sf := if smoothingFactor > 0 then smoothingFactor else FIXED_1;
      var total := currentMedian * sf + previousEMA * (FIXED_1 - sf);
      if currentMedian <= previousEMA {
        ConvexBounds(currentMedian, previousEMA, sf, FIXED_1);
        QuotientBetween(total, currentMedian, previousEMA, FIXED_1);
      } else {
        ConvexBounds(previousEMA, currentMedian, sf, FIXED_1);
        QuotientBetween(total, previousEMA, currentMedian, FIXED_1);
      }
    }
  }

  /** The average after a run of medians, unseeded before the first. */
  function EmaOver(medians: seq<nat>, smoothingFactor: int): nat
    requires smoothingFactor <= FIXED_1
  {
    if medians == [] then 0 else
      var previous := EmaOver(medians[..|medians| - 1], smoothingFactor);
      EmaIsConvex(medians[|medians| - 1], previous, smoothingFactor);
      NextMedianEMA(medians[|medians| - 1], previous, smoothingFactor)
  }

  lemma {:induction false} SeededStaysSeeded(medians: seq<nat>, smoothingFactor: int)
    requires smoothingFactor <= FIXED_1 && medians != [] && forall m :: m in medians ==> m > 0
    ensures EmaOver(medians, smoothingFactor) > 0
  {
    var init := medians[..|medians| - 1];
    if init == [] {
      assert EmaOver(init, smoothingFactor) == 0;
    } else {
      assert forall m :: m in init ==> m in medians;
      SeededStaysSeeded(init, smoothingFactor);
    }
    assert medians[|medians| - 1] in medians;
    EmaIsConvex(medians[|medians| - 1], EmaOver(init, smoothingFactor), smoothingFactor);
  }
}
