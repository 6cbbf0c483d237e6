/** What an event makes of a config, and of the flags of the pools that depend on it. */
module BreakerMeanings {
  import opened Ordering
  import opened Breakers
  import opened BreakerHydration
  import opened BreakerEvents

  /** The pool carries a flag, and its feed is the given one or depends on it directly. */
  ghost predicate Shows(g: Graph, p: Pool, feed: string) {
    !p.isVirtual && (p.feed == feed || Edge(p.chain, p.feed, feed) in g.edges)
  }

  /** Some config of the pool's feed or of a direct dependency halts it: an enabled one of a known
      breaker that is not a trading-hours one, and tripped by the given account. */
  ghost predicate HaltedBy(g: Graph, p: Pool, tripped: ConfigKey -> bool) {
    exists k :: k in g.configs && k.chain == p.chain && (k.feed == p.feed || Edge(p.chain, p.feed, k.feed) in g.edges)
      && g.configs[k].enabled && tripped(k)
      && BreakerKey(k.chain, k.breaker) in g.breakers && !g.breakers[BreakerKey(k.chain, k.breaker)].kind.MarketHours?
  }

  ghost function TrippedIn(g: Graph): ConfigKey -> bool {
    (k: ConfigKey) => k in g.configs && g.configs[k].tripped
  }

  lemma HaltedMeans(g: Graph, p: Pool)
    ensures Halted(g, p.chain, p.feed) <==> HaltedBy(g, p, TrippedIn(g))
  {
    if Halted(g, p.chain, p.feed) {
      if !OwnHalted(g, p.chain, p.feed) {
        var e :| e in g.edges && e.chain == p.chain && e.feed == p.feed && OwnHalted(g, p.chain, e.dependsOn);
        assert e == Edge(p.chain, p.feed, e.dependsOn);
      }
    }
    if HaltedBy(g, p, TrippedIn(g)) {
      var k :| k in g.configs && k.chain == p.chain && (k.feed == p.feed || Edge(p.chain, p.feed, k.feed) in g.edges)
        && g.configs[k].enabled && TrippedIn(g)(k)
        && BreakerKey(k.chain, k.breaker) in g.breakers && !g.breakers[BreakerKey(k.chain, k.breaker)].kind.MarketHours?;
      assert Halts(g, k);
      assert OwnHalted(g, p.chain, k.feed);
    }
  }

  /** After a sync of `feed` the pools it reaches carry what the configs say; no other pool changes,
      and nothing but the flag. */
  ghost predicate FlagsSet(before: map<string, Pool>, after: map<string, Pool>, g: Graph, chain: int, feed: string, tripped: ConfigKey -> bool) {
    && after.Keys == before.Keys
    && forall id :: id in before ==>
         after[id] == if before[id].chain == chain && Shows(g, before[id], feed)
                      then before[id].(breakerTripped := HaltedBy(g, before[id], tripped)) else before[id]
  }

  lemma SyncSets(g: Graph, pools: map<string, Pool>, chain: int, feed: string)
    ensures FlagsSet(pools, Synced(g, pools, chain, feed), g, chain, feed, TrippedIn(g))
  {
    hide HaltedBy, Halted, TrippedIn;
    forall id | id in pools ensures Halted(g, pools[id].chain, pools[id].feed) <==> HaltedBy(g, pools[id], TrippedIn(g)) { HaltedMeans(g, pools[id]); }
  }

  /** Two accounts that agree on the enabled configs set the same flags. */
  lemma SameAccount(before: map<string, Pool>, after: map<string, Pool>, g: Graph, g': Graph, chain: int, feed: string,
      tripped: ConfigKey -> bool, tripped': ConfigKey -> bool)
    requires FlagsSet(before, after, g, chain, feed, tripped)
    requires g.edges == g'.edges && g.breakers == g'.breakers && g.configs.Keys == g'.configs.Keys
    requires forall k :: k in g.configs ==> (g.configs[k].enabled && tripped(k) <==> g'.configs[k].enabled && tripped'(k))
    ensures FlagsSet(before, after, g', chain, feed, tripped')
  {
    hide HaltedBy;
    forall p ensures HaltedBy(g, p, tripped) <==> HaltedBy(g', p, tripped') { SameHalt(g, g', p, tripped, tripped'); }
  }

  lemma SameHalt(g: Graph, g': Graph, p: Pool, tripped: ConfigKey -> bool, tripped': ConfigKey -> bool)
    requires g.edges == g'.edges && g.breakers == g'.breakers && g.configs.Keys == g'.configs.Keys
    requires forall k :: k in g.configs ==> (g.configs[k].enabled && tripped(k) <==> g'.configs[k].enabled && tripped'(k))
    ensures HaltedBy(g, p, tripped) <==> HaltedBy(g', p, tripped')
  {
  }

  // ---------------------------------------------------------------- events about one config

  /** The tripped configs of a graph, with one of them as said. */
  ghost function But(g: Graph, key: ConfigKey, tripped: bool): ConfigKey -> bool {
    (k: ConfigKey) => if k == key then tripped else k in g.configs && g.configs[k].tripped
  }

  /** One config set to `c`, everything else kept, and the flags of its feed and its dependents set. */
  ghost predicate OneConfigSet(s: State, t: State, g: Graph, k: ConfigKey, c: Config) {
    && t.graph == g.(configs := g.configs[k := c]) && t.caches == s.caches
    && FlagsSet(s.pools, t.pools, t.graph, k.chain, k.feed, But(g, k, c.tripped))
  }

  lemma SetMeans(s: State, k: ConfigKey, rpc: Rpc, change: (Breaker, Config) -> Config)
    requires Known(Ensured(s.graph, k, rpc), k)
    ensures
      var g := Ensured(s.graph, k, rpc);
      OneConfigSet(s, SetAndSynced(s, k, rpc, change), g, k, change(g.breakers[BreakerOf(k)], g.configs[k]))
  {
    hide Synced, HydratedWith, FlagsSet;
    var g := Ensured(s.graph, k, rpc);
    var c := change(g.breakers[BreakerOf(k)], g.configs[k]);
    var next := g.(configs := g.configs[k := c]);
    SyncSets(next, s.pools, k.chain, k.feed);
    forall other | other in next.configs ensures TrippedIn(next)(other) <==> But(g, k, c.tripped)(other) {}
    SameAccount(s.pools, Synced(next, s.pools, k.chain, k.feed), next, next, k.chain, k.feed, TrippedIn(next), But(g, k, c.tripped));
  }

  /** With the rows there or read, a trip leaves the config tripped, in the breaker's mode, stamped with
      the block time and its cooldown; if enabled, and of no trading-hours breaker, it halts every pool
      on the feed or a direct dependent. */
  lemma TripMeans(s: State, chain: int, breaker: string, feed: string, timestamp: int, rpc: Rpc)
    requires Known(Ensured(s.graph, KeyOf(chain, breaker, feed), rpc), KeyOf(chain, breaker, feed))
    ensures
      var k, t := KeyOf(chain, breaker, feed), After(s, BreakerTripped(chain, breaker, feed, timestamp, rpc));
      var g := Ensured(s.graph, k, rpc);
      var b, c, now := g.breakers[BreakerKey(chain, AsAddress(breaker))], g.configs[k], t.graph.configs[k];
      && OneConfigSet(s, t, g, k, now) && now.tripped && now.tradingMode == b.activatesTradingMode && now.lastStatusUpdatedAt == timestamp
      && CooldownRight(b, now) && now == c.(tripped := true, tradingMode := now.tradingMode, lastStatusUpdatedAt := timestamp, cooldownEndsAt := now.cooldownEndsAt)
      && (c.enabled && !b.kind.MarketHours? ==>
            forall id :: id in s.pools && s.pools[id].chain == chain && Shows(g, s.pools[id], AsAddress(feed)) ==> t.pools[id].breakerTripped)
  {
    hide Synced, HydratedWith, AsAddress;
    var k := KeyOf(chain, breaker, feed);
    SetMeans(s, k, rpc, (b: Breaker, c: Config) => Stamped(b, c, true, b.activatesTradingMode, timestamp));
    var t := After(s, BreakerTripped(chain, breaker, feed, timestamp, rpc));
    forall id | id in s.pools && s.pools[id].chain == chain && Shows(t.graph, s.pools[id], k.feed)
      && t.graph.configs[k].enabled && !t.graph.breakers[BreakerOf(k)].kind.MarketHours?
      ensures HaltedBy(t.graph, s.pools[id], But(Ensured(s.graph, k, rpc), k, true))
    {
      assert k in t.graph.configs;
    }
  }

  /** A reset leaves the config in mode 0 and halting nothing: what is still halted is so by another. */
  lemma ResetMeans(s: State, chain: int, breaker: string, feed: string, timestamp: int, rpc: Rpc)
    requires Known(Ensured(s.graph, KeyOf(chain, breaker, feed), rpc), KeyOf(chain, breaker, feed))
    ensures
      var k, t := KeyOf(chain, breaker, feed), After(s, ResetSuccessful(chain, breaker, feed, timestamp, rpc));
      var g := Ensured(s.graph, k, rpc);
      var b, c, now := g.breakers[BreakerKey(chain, AsAddress(breaker))], g.configs[k], t.graph.configs[k];
      && OneConfigSet(s, t, g, k, now) && !now.tripped && now.tradingMode == 0 && now.lastStatusUpdatedAt == timestamp && CooldownRight(b, now)
      && now == c.(tripped := false, tradingMode := 0, lastStatusUpdatedAt := timestamp, cooldownEndsAt := now.cooldownEndsAt)
  {
    hide Synced, HydratedWith, AsAddress, FlagsSet;
    SetMeans(s, KeyOf(chain, breaker, feed), rpc, (b: Breaker, c: Config) => Stamped(b, c, false, 0, timestamp));
  }

  /** Enabling or disabling changes nothing else of the config; the flags follow. */
  lemma StatusMeans(s: State, chain: int, breaker: string, feed: string, enabled: bool, rpc: Rpc)
    requires Known(Ensured(s.graph, KeyOf(chain, breaker, feed), rpc), KeyOf(chain, breaker, feed))
    ensures
      var k, t := KeyOf(chain, breaker, feed), After(s, BreakerStatusUpdated(chain, breaker, feed, enabled, rpc));
      var g := Ensured(s.graph, k, rpc);
      OneConfigSet(s, t, g, k, g.configs[k].(enabled := enabled))
  {
    hide Synced, HydratedWith, AsAddress, FlagsSet;
    SetMeans(s, KeyOf(chain, breaker, feed), rpc, (b: Breaker, c: Config) => c.(enabled := enabled));
  }

  /** Without the rows, even after reading, nothing but the rows read changes. */
  lemma UnknownMeans(s: State, k: ConfigKey, rpc: Rpc, change: (Breaker, Config) -> Config)
    requires !Known(Ensured(s.graph, k, rpc), k)
    ensures SetAndSynced(s, k, rpc, change) == s.(graph := Ensured(s.graph, k, rpc))
  {
  }

  // ---------------------------------------------------------------- the owner's override

  /** The configs an override sets: the feed's enabled ones in another mode. */
  ghost predicate Overrides(g: Graph, k: ConfigKey, chain: int, feed: string, mode: int) {
    k in g.configs && k.chain == chain && k.feed == feed && g.configs[k].enabled && g.configs[k].tradingMode != mode
  }

  ghost function TrippedUnder(g: Graph, chain: int, feed: string, mode: int): ConfigKey -> bool {
    (k: ConfigKey) => if Overrides(g, k, chain, feed, mode) then mode != 0 else k in g.configs && g.configs[k].tripped
  }

  /** After an override every enabled config of the feed is in the given mode, and those it moved are
      tripped unless the mode is 0, stamped with the block time; the flags follow. */
  lemma OverrideMeans(s: State, chain: int, feed: string, mode: int, timestamp: int, rpc: Rpc)
    ensures
      var f, t := AsAddress(feed), After(s, TradingModeUpdated(chain, feed, mode, timestamp, rpc));
      var g := Bootstrapped(s.graph, s.caches, chain, f, timestamp, rpc).graph;
      && t.graph.edges == g.edges && t.graph.breakers == g.breakers && t.graph.configs.Keys == g.configs.Keys
      && (forall k :: k in g.configs ==>
            var c, now := g.configs[k], t.graph.configs[k];
            if Overrides(g, k, chain, f, mode) then
              && now == c.(tripped := mode != 0, tradingMode := mode, lastStatusUpdatedAt := timestamp, cooldownEndsAt := now.cooldownEndsAt)
              && (BreakerOf(k) in g.breakers ==> CooldownRight(g.breakers[BreakerOf(k)], now))
            else now == c)
      && FlagsSet(s.pools, t.pools, g, chain, f, TrippedUnder(g, chain, f, mode))
  {
    hide Synced, Bootstrapped, AsAddress, FlagsSet;
    var f := AsAddress(feed);
    var g := Bootstrapped(s.graph, s.caches, chain, f, timestamp, rpc).graph;
    var after := Overridden(g, chain, f, mode, timestamp);
    SyncSets(after, s.pools, chain, f);
    forall k | k in after.configs
      ensures after.configs[k].enabled && TrippedIn(after)(k) <==> g.configs[k].enabled && TrippedUnder(g, chain, f, mode)(k)
    {
      assert after.configs[k] == OverriddenConfig(g, k, chain, f, mode, timestamp);
    }
    SameAccount(s.pools, Synced(after, s.pools, chain, f), after, g, chain, f, TrippedIn(after), TrippedUnder(g, chain, f, mode));
  }

  // ---------------------------------------------------------------- settings, removals and pools

  /** A config read from the chain says what the chain says: tripped exactly in a mode other than 0. */
  lemma ReadMeans(b: Breaker, r: FeedReply)
    ensures
      var c := NewConfig(b, r);
      && c.enabled == r.enabled && (c.tripped <==> c.tradingMode != 0) && c.tradingMode == r.tradingMode
      && c.cooldownTime == r.cooldownTime && c.threshold == r.threshold && c.lastStatusUpdatedAt == r.lastStatusUpdatedAt && CooldownRight(b, c)
  {
  }

  /** A new default is stored on its breaker; a cooldown moves the ends of the configs that inherit it,
      and nothing else changes. */
  lemma DefaultMeans(s: State, chain: int, breaker: string, change: DefaultChange, rpc: Rpc)
    requires
      var key := BreakerKey(chain, AsAddress(breaker));
      key in BreakersWith(s.graph.breakers, key, rpc)
    ensures
      var key, t := BreakerKey(chain, AsAddress(breaker)), After(s, DefaultUpdated(chain, breaker, change, rpc));
      var breakers := BreakersWith(s.graph.breakers, key, rpc);
      var b := if change.DefaultCooldown? then breakers[key].(defaultCooldown := change.cooldown) else breakers[key].(defaultThreshold := change.threshold);
      && t == s.(graph := s.graph.(breakers := breakers[key := b], configs := t.graph.configs)) && t.graph.configs.Keys == s.graph.configs.Keys
      && forall k :: k in s.graph.configs ==>
           var c, now := s.graph.configs[k], t.graph.configs[k];
           && now == c.(cooldownEndsAt := now.cooldownEndsAt)
           && (BreakerOf(k) != key || change.DefaultThreshold? ==> now == c)
           && (BreakerOf(k) == key && CooldownRight(breakers[key], c) ==> CooldownRight(b, now))
  {
    hide AsAddress;
  }

  /** A feed's own cooldown or threshold is stored, the end of the cooldown follows, and no flag moves. */
  lemma SettingMeans(s: State, chain: int, breaker: string, feed: string, change: ConfigChange, rpc: Rpc)
    requires Known(Ensured(s.graph, KeyOf(chain, breaker, feed), rpc), KeyOf(chain, breaker, feed))
    ensures
      var k, t := KeyOf(chain, breaker, feed), After(s, FeedConfigUpdated(chain, breaker, feed, change, rpc));
      var g := Ensured(s.graph, k, rpc);
      var b, c, now := g.breakers[BreakerKey(chain, AsAddress(breaker))], g.configs[k], t.graph.configs[k];
      && t == s.(graph := g.(configs := g.configs[k := now]))
      && match change
         case Cooldown(cooldown) =>
           now == c.(cooldownTime := cooldown, cooldownEndsAt := now.cooldownEndsAt) && (CooldownRight(b, c) ==> CooldownRight(b, now))
         case Threshold(threshold) => now == c.(threshold := threshold)
         case OtherField => now == c
  {
    hide HydratedWith, AsAddress;
  }

  /** Removing a breaker disables its configs and marks its row; removing a feed disables the feed's
      configs and drops its own dependencies. Nothing else of the rows changes. */
  lemma RemovalsMean(s: State, chain: int, address: string)
    ensures
      var t, key := After(s, BreakerRemoved(chain, address)).graph, BreakerKey(chain, AsAddress(address));
      && t.edges == s.graph.edges && t.breakers.Keys == s.graph.breakers.Keys && t.configs.Keys == s.graph.configs.Keys
      && (forall b :: b in t.breakers ==> t.breakers[b] == s.graph.breakers[b].(removed := b == key || s.graph.breakers[b].removed))
      && (forall k :: k in t.configs ==>
            t.configs[k] == s.graph.configs[k].(enabled := s.graph.configs[k].enabled && !(k.chain == chain && k.breaker == AsAddress(address))))
    ensures
      var t, feed := After(s, RateFeedRemoved(chain, address)).graph, AsAddress(address);
      && t.breakers == s.graph.breakers && t.configs.Keys == s.graph.configs.Keys
      && (forall k :: k in t.configs ==>
            t.configs[k] == s.graph.configs[k].(enabled := s.graph.configs[k].enabled && !(k.chain == chain && k.feed == feed)))
      && (forall e :: e in t.edges <==> e in s.graph.edges && !(e.chain == chain && e.feed == feed))
  {
    hide AsAddress, Synced, SyncedAll, FeedsOf;
  }

  /** A new pool has no feed and no flag; a pool found to be virtual, or given a feed, changes in that,
      and only a first feed of a non-virtual pool sets the flag, to the feed's halt. */
  lemma PoolsMean(s: State, id: string, chain: int, feed: string)
    ensures After(s, PoolCreated(id, chain)) == if id in s.pools then s else s.(pools := s.pools[id := Pool(chain, "", false, false)])
    ensures id in s.pools ==>
      var p, found := s.pools[id], After(s, PoolFoundVirtual(id));
      found == s.(pools := s.pools[id := p.(isVirtual := true)])
    ensures id in s.pools ==>
      var p, t, f := s.pools[id], After(s, FeedAssigned(id, feed)), AsAddress(feed);
      var flag := if !p.isVirtual && p.feed == "" && feed != "" then HaltedBy(s.graph, p.(feed := f), TrippedIn(s.graph)) else p.breakerTripped;
      t == s.(pools := s.pools[id := p.(feed := f, breakerTripped := flag)])
    ensures id !in s.pools ==> After(s, PoolFoundVirtual(id)) == s == After(s, FeedAssigned(id, feed))
  {
    hide Halted, HaltedBy;
    if id in s.pools { HaltedMeans(s.graph, s.pools[id].(feed := AsAddress(feed))); }
  }

  /** An oracle event of a feed without pools changes nothing; with pools but without any config the feed
      is bootstrapped and synced, and either way its dependencies are then loaded. */
  lemma OracleMeans(s: State, chain: int, feed: string, timestamp: int, rpc: Rpc)
    ensures
      var f, t := AsAddress(feed), After(s, OracleUpdated(chain, feed, timestamp, rpc));
      var b := Bootstrapped(s.graph, s.caches, chain, f, timestamp, rpc);
      var known := exists k :: k in s.graph.configs && k.chain == chain && k.feed == f;
      var start := if known then s else State(b.graph, Synced(b.graph, s.pools, chain, f), b.caches);
      && ((forall id :: id in s.pools ==> s.pools[id].chain != chain || s.pools[id].feed != f) ==> t == s)
      && ((exists id :: id in s.pools && s.pools[id].chain == chain && s.pools[id].feed == f) ==>
            t == LoadedAndSynced(start, chain, f, timestamp, false, rpc))
  {
    hide AsAddress, Bootstrapped, Synced, LoadedAndSynced;
  }

  /** A load that goes ahead makes the chain's dependencies of the feed, and no others, its edges; it goes
      ahead when forced, or unless it is done or backing off, if the chain answers. */
  lemma LoadMeans(s: State, chain: int, feed: string, timestamp: int, force: bool, rpc: Rpc)
    ensures
      var t := LoadedAndSynced(s, chain, feed, timestamp, force, rpc);
      var key := Dependencies(chain, feed);
      var open := key !in s.caches.attempted && (key in s.caches.backoffUntil ==> s.caches.backoffUntil[key] <= timestamp);
      if (force || open) && feed in rpc.dependencies then
        && (forall e :: e in t.graph.edges <==>
              if e.chain == chain && e.feed == feed then exists a :: a in rpc.dependencies[feed] && AsAddress(a) == e.dependsOn else e in s.graph.edges)
        && t.pools == Synced(t.graph, s.pools, chain, feed)
      else t.graph == s.graph && (!force ==> t.pools == s.pools)
  {
    hide AsAddress, BootstrappedAll, Synced, Marked, Dropped, Backed;
    if feed in rpc.dependencies {
      KeepsEdges(Linked(s.graph, chain, feed, rpc), s.caches, chain, rpc.dependencies[feed], timestamp, rpc);
      ReconciledEdges(s.graph.edges, chain, feed, Addresses(rpc.dependencies[feed]));
      forall e: Edge | e.chain == chain && e.feed == feed ensures e == Edge(chain, feed, e.dependsOn) {}
    }
  }

  lemma {:induction false} KeepsEdges(g: Graph, c: Caches, chain: int, feeds: seq<string>, now: int, rpc: Rpc)
    ensures BootstrappedAll(g, c, chain, feeds, now, rpc).graph.edges == g.edges
  {
    hide AsAddress, Marked, Dropped, Backed, AllAnswered;
    if feeds != [] {
      KeepsEdges(g, c, chain, feeds[..|feeds| - 1], now, rpc);
      var b := BootstrappedAll(g, c, chain, feeds[..|feeds| - 1], now, rpc);
      if rpc.breakerList.Some? { ListKeepsEdges(b.graph, chain, AsAddress(feeds[|feeds| - 1]), rpc.breakerList.value, rpc); }
    }
  }

  lemma {:induction false} ListKeepsEdges(g: Graph, chain: int, feed: string, list: seq<string>, rpc: Rpc)
    ensures HydratedWithAll(g, chain, feed, list, rpc).edges == g.edges
  {
    hide AsAddress, NewConfig;
    if list != [] { ListKeepsEdges(g, chain, feed, list[..|list| - 1], rpc); }
  }
}
