/** The event handlers in front of the breaker store. */
module BreakerHandlers {
  import opened Ordering
  import opened Outcomes
  import opened Breakers
  import opened BreakerHydration
  import opened BreakerEvents
  import opened BreakerRuns
  import S = BreakerStore

  /** The part the status, trip and reset handlers share: both rows ensured, the config replaced, and
      the feed synced even if the config did not change. */
  method SetAndSync(store: S.BreakerStore, chain: int, breaker: string, feed: string, rpc: Rpc, change: (Breaker, Config) -> Config)
    requires store.Valid()
    modifies store
    ensures store.View() == SetAndSynced(old(store.View()), KeyOf(chain, breaker, feed), rpc, change)
  {
    hide AsAddress, Ensured, Synced, S.LowerCaseEdges, S.LowerCaseConfigs, Bounded;
    var k := KeyOf(chain, breaker, feed);
    ghost var was := store.edges;
    var both := store.EnsureBoth(chain, breaker, feed, rpc);
    assert store.edges == was by { EnsuredKeepsEdges(old(store.Now()), k, rpc); }
    if both.None? { return; }
    store.configs := store.configs[k := change(both.value.0, both.value.1)];
    store.SyncPoolsBreakerHalt(chain, feed);
  }

  lemma EnsuredKeepsEdges(g: Graph, k: ConfigKey, rpc: Rpc)
    ensures Ensured(g, k, rpc).edges == g.edges
  {
  }

  method OnTradingModeUpdated(store: S.BreakerStore, chain: int, feed: string, mode: int, timestamp: int, rpc: Rpc)
    requires store.Valid()
    modifies store, store.caches
    ensures store.caches.Valid() && store.View() == After(old(store.View()), TradingModeUpdated(chain, feed, mode, timestamp, rpc))
  {
    hide AsAddress, Synced, Bootstrapped, Stamped, S.LowerCaseEdges, S.LowerCaseConfigs, Bounded;
    ghost var g, c := store.Now(), store.caches.View();
    var hydrated := store.BootstrapFeedBreakerConfigs(chain, feed, timestamp, rpc);
    assert store.edges == g.edges by { BootstrapReads(g, c, chain, AsAddress(feed), timestamp, rpc); }
    OverrideModes(store, chain, AsAddress(feed), mode, timestamp);
    store.SyncPoolsBreakerHalt(chain, feed);
  }

  /** Disabled configs, and those already in the mode, are left alone. */
  method OverrideModes(store: S.BreakerStore, chain: int, feed: string, mode: int, timestamp: int)
    modifies store`configs
    ensures store.Now() == Overridden(old(store.Now()), chain, feed, mode, timestamp)
  {
    hide StampedFor, OverriddenConfig, EffectiveCooldown;
    ghost var g := store.Now();
    OthersStay(g, chain, feed, mode, timestamp);
    var todo := set k | k in store.configs && k.chain == chain && k.feed == feed;
    while todo != {}
      invariant store.configs.Keys == g.configs.Keys && todo <= g.configs.Keys
      invariant forall k :: k in todo ==> k.chain == chain && k.feed == feed && store.configs[k] == g.configs[k]
      invariant forall k :: k in store.configs && k !in todo ==> store.configs[k] == OverriddenConfig(g, k, chain, feed, mode, timestamp)
      decreases |todo|
    {
      var k :| k in todo;
      todo := todo - {k};
      OwnConfig(g, k, chain, feed, mode, timestamp);
      if !store.configs[k].enabled || store.configs[k].tradingMode == mode { continue; }
      var cooldown := if BreakerOf(k) in store.breakers then EffectiveCooldown(store.breakers[BreakerOf(k)].defaultCooldown, store.configs[k].cooldownTime)
                      else store.configs[k].cooldownTime;
      store.configs := store.configs[k := StampedFor(store.configs[k], cooldown, mode != 0, mode, timestamp)];
    }
  }

  lemma OthersStay(g: Graph, chain: int, feed: string, mode: int, timestamp: int)
    ensures forall k :: k in g.configs && !(k.chain == chain && k.feed == feed) ==> OverriddenConfig(g, k, chain, feed, mode, timestamp) == g.configs[k]
  {
  }

  lemma OwnConfig(g: Graph, k: ConfigKey, chain: int, feed: string, mode: int, timestamp: int)
    requires k in g.configs && k.chain == chain && k.feed == feed
    ensures OverriddenConfig(g, k, chain, feed, mode, timestamp) ==
      if !g.configs[k].enabled || g.configs[k].tradingMode == mode then g.configs[k] else StampedFor(g.configs[k], CooldownOf(g, k), mode != 0, mode, timestamp)
  {
  }

  method OnRateFeedDependenciesSet(store: S.BreakerStore, chain: int, feed: string, timestamp: int, rpc: Rpc)
    requires store.Valid()
    modifies store, store.caches
    ensures store.caches.Valid() && store.View() == After(old(store.View()), RateFeedDependenciesSet(chain, feed, timestamp, rpc))
  {
    hide AsAddress, Synced, LoadedFrom, S.LowerCaseEdges, S.LowerCaseConfigs, Bounded;
    var loaded := store.LoadFeedDependencies(chain, feed, timestamp, true, rpc);
    store.SyncPoolsBreakerHalt(chain, feed);
  }

  /** What the report and median handlers do about breakers: a feed with pools but no config is
      bootstrapped and synced, then its dependencies are loaded and synced. */
  method OnOracleUpdated(store: S.BreakerStore, chain: int, feed: string, timestamp: int, rpc: Rpc)
    requires store.Valid()
    modifies store, store.caches
    ensures store.caches.Valid() && store.View() == After(old(store.View()), OracleUpdated(chain, feed, timestamp, rpc))
  {
    hide AsAddress, Synced, LoadedFrom, Bootstrapped, S.LowerCaseEdges, S.LowerCaseConfigs, Bounded;
    ghost var s := store.View();
    if !HasPools(store.pools, chain, AsAddress(feed)) { return; }
    if !HasConfigs(Graph(store.breakers, store.configs, store.edges), chain, AsAddress(feed)) {
      var hydrated := store.BootstrapFeedBreakerConfigs(chain, feed, timestamp, rpc);
      assert store.edges == s.graph.edges by { BootstrapReads(s.graph, s.caches, chain, AsAddress(feed), timestamp, rpc); }
      store.SyncPoolsBreakerHalt(chain, feed);
    }
    assert store.View() == ColdStarted(s, chain, AsAddress(feed), timestamp, rpc);
    store.SyncDependencyHaltOnColdStart(chain, feed, timestamp, true, rpc);
  }

  /** A pool whose feed is assigned, for the first time or again. */
  method OnFeedAssigned(store: S.BreakerStore, id: string, feed: string)
    requires store.Valid()
    modifies store`pools
    ensures store.View() == After(old(store.View()), FeedAssigned(id, feed))
  {
    hide Halted, S.LowerCaseEdges, S.LowerCaseConfigs, Bounded, AsAddress;
    if id !in store.pools { return; }
    var p := store.pools[id];
    var tripped := BreakerTrippedOnFeedAssign(store, p, feed);
    store.pools := store.pools[id := p.(feed := AsAddress(feed), breakerTripped := tripped)];
  }

  method BreakerTrippedOnFeedAssign(store: S.BreakerStore, existing: Pool, nextFeed: string) returns (tripped: bool)
    requires store.Valid()
    ensures tripped == TrippedOnFeedAssign(store.Now(), existing, AsAddress(nextFeed))
  {
    hide Halted, S.LowerCaseEdges, S.LowerCaseConfigs, Bounded;
    if existing.isVirtual { return existing.breakerTripped; }
    if existing.feed != "" || nextFeed == "" { return existing.breakerTripped; }
    tripped := store.ComputeFeedHalted(existing.chain, nextFeed);
  }

  method Handle(store: S.BreakerStore, x: Event)
    requires store.Valid()
    modifies store, store.caches
    ensures store.Valid() && store.View() == After(old(store.View()), x)
  {
    hide AsAddress, Synced, SyncedAll, Bootstrapped, LoadedFrom, S.LowerCaseEdges, S.LowerCaseConfigs, Bounded, SetAndSynced, WithDefault, Ensured, BreakersKnown,
      FeedRemoved, BreakerRemovedFrom, Overridden, ColdStarted, LoadedAndSynced, TrippedOnFeedAssign, HydratedWith, Stamped, Changed;
    TidyAfter(store.View(), x);
    match x
    case BreakerAdded(chain, breaker, rpc) => var b := store.EnsureBreaker(chain, breaker, rpc);
    case BreakerRemoved(chain, breaker) => OnBreakerRemoved(store, chain, breaker);
    case BreakerStatusUpdated(chain, breaker, feed, enabled, rpc) =>
      SetAndSync(store, chain, breaker, feed, rpc, (b: Breaker, c: Config) => c.(enabled := enabled));
    case BreakerTripped(chain, breaker, feed, timestamp, rpc) =>
      SetAndSync(store, chain, breaker, feed, rpc, (b: Breaker, c: Config) => Stamped(b, c, true, b.activatesTradingMode, timestamp));
    case ResetSuccessful(chain, breaker, feed, timestamp, rpc) =>
      SetAndSync(store, chain, breaker, feed, rpc, (b: Breaker, c: Config) => Stamped(b, c, false, 0, timestamp));
    case TradingModeUpdated(chain, feed, mode, timestamp, rpc) => OnTradingModeUpdated(store, chain, feed, mode, timestamp, rpc);
    case RateFeedRemoved(chain, feed) => store.ClearHaltOnFeedRemoved(chain, feed);
    case RateFeedDependenciesSet(chain, feed, timestamp, rpc) => OnRateFeedDependenciesSet(store, chain, feed, timestamp, rpc);
    case DefaultUpdated(chain, breaker, default, rpc) =>
      match default {
        case DefaultCooldown(cooldown) => store.HandleDefaultCooldownTimeUpdated(chain, breaker, cooldown, rpc);
        case DefaultThreshold(threshold) => store.HandleDefaultRateChangeThresholdUpdated(chain, breaker, threshold, rpc);
      }
    case FeedConfigUpdated(chain, breaker, feed, change, rpc) =>
      match change {
        case Cooldown(cooldown) => store.HandleRateFeedCooldownTimeUpdated(chain, breaker, feed, cooldown, rpc);
        case Threshold(threshold) => store.HandleRateChangeThresholdUpdated(chain, breaker, feed, threshold, rpc);
        case OtherField => OnOtherField(store, chain, breaker, feed, rpc);
      }
    case OracleUpdated(chain, feed, timestamp, rpc) => OnOracleUpdated(store, chain, feed, timestamp, rpc);
    case PoolCreated(id, chain) => if id !in store.pools { store.pools := store.pools[id := Pool(chain, "", false, false)]; }
    case PoolFoundVirtual(id) => if id in store.pools { store.pools := store.pools[id := store.pools[id].(isVirtual := true)]; }
    case FeedAssigned(id, feed) => OnFeedAssigned(store, id, feed);
  }

  /** The smoothing factor, average reset and reference value handlers. */
  method OnOtherField(store: S.BreakerStore, chain: int, breaker: string, feed: string, rpc: Rpc)
    modifies store`breakers, store`configs
    ensures store.View() == After(old(store.View()), FeedConfigUpdated(chain, breaker, feed, OtherField, rpc))
  {
    hide AsAddress, Ensured;
    var k := KeyOf(chain, breaker, feed);
    var both := store.EnsureBoth(chain, breaker, feed, rpc);
    if both.Some? { assert store.configs == store.configs[k := both.value.1]; }
  }

  /** Events one after another on a fresh store. */
  method Replay(events: seq<Event>) returns (store: S.BreakerStore)
    ensures fresh(store) && store.View() == StateAfter(events)
    ensures Sound(store.Now()) && (NothingBreaks(events) ==> FlagsAgree(store.Now(), store.pools))
  {
    hide After, S.LowerCaseEdges, S.LowerCaseConfigs, Bounded, Sound, FlagsAgree, NothingBreaks;
    store := new S.BreakerStore();
    for i := 0 to |events|
      invariant fresh(store) && fresh(store.caches) && store.Valid() && store.View() == StateAfter(events[..i])
    {
      assert events[..i + 1][..i] == events[..i] && events[..i + 1][i] == events[i];
      Handle(store, events[i]);
    }
    assert events[..|events|] == events;
    RowsAlwaysSound(events);
    if NothingBreaks(events) { RightAtTheEnd(events); }
  }

  lemma RightAtTheEnd(run: seq<Event>)
    requires NothingBreaks(run)
    ensures FlagsRight(StateAfter(run))
  {
    hide StateAfter, FlagsRight, NothingBreaks;
    AlwaysRightExactly(run);
    assert run[..|run|] == run;
  }

  method OnBreakerRemoved(store: S.BreakerStore, chain: int, breaker: string)
    requires store.Valid()
    modifies store
    ensures store.Valid() && store.View() == After(old(store.View()), BreakerRemoved(chain, breaker))
  {
    hide AsAddress, Synced, SyncedAll, FeedsOf, S.LowerCaseEdges, S.LowerCaseConfigs, Bounded, BreakerRemovedFrom;
    TidyAfter(store.View(), BreakerRemoved(chain, breaker));
    var key := BreakerKey(chain, AsAddress(breaker));
    ghost var was := store.Now();
    if key in store.breakers { store.breakers := store.breakers[key := store.breakers[key].(removed := true)]; }
    RemovedRows(was, store.Now(), key);
    var affected := DisableBreaker(store, key);
    ghost var g, pools, feeds := store.Now(), store.pools, affected;
    assert g == BreakerRemovedFrom(was, key);
    FeedsAreLowerCase(was, key);
    ghost var done: set<string> := {};
    NothingSynced(g, pools, chain);
    while affected != {}
      invariant store.Valid() && store.Now() == g && store.caches.View() == old(store.caches.View())
      invariant done + affected == feeds && store.pools == SyncedAll(g, pools, chain, done)
      decreases |affected|
    {
      var feed :| feed in affected;
      affected := affected - {feed};
      SyncOneMore(g, pools, chain, done, feed);
      done := done + {feed};
      store.SyncPoolsBreakerHalt(chain, feed);
    }
    assert done == feeds;
  }

  lemma NothingSynced(g: Graph, pools: map<string, Pool>, chain: int)
    ensures SyncedAll(g, pools, chain, {}) == pools
  {
    hide Halted;
  }

  method DisableBreaker(store: S.BreakerStore, key: BreakerKey) returns (affected: set<string>)
    modifies store`configs
    ensures store.configs == BreakerRemovedFrom(old(store.Now()), key).configs && affected == FeedsOf(old(store.Now()), key)
  {
    hide DisabledBut, FeedsBut, BreakerRemovedFrom, FeedsOf;
    affected := {};
    ghost var was := store.configs;
    AllDisabled(store.Now(), key);
    var todo := set k | k in store.configs && BreakerOf(k) == key;
    NothingDisabled(was, key, todo);
    while todo != {}
      invariant todo <= was.Keys && forall k :: k in todo ==> BreakerOf(k) == key
      invariant store.configs == DisabledBut(was, key, todo) && affected == FeedsBut(was, key, todo)
      decreases |todo|
    {
      var k :| k in todo;
      DisableNext(was, key, todo, k);
      todo := todo - {k};
      if store.configs[k].enabled {
        store.configs := store.configs[k := store.configs[k].(enabled := false)];
        affected := affected + {k.feed};
      } else {
        assert store.configs == store.configs[k := store.configs[k].(enabled := false)];
      }
    }
  }

  ghost function DisabledBut(configs: map<ConfigKey, Config>, key: BreakerKey, todo: set<ConfigKey>): map<ConfigKey, Config> {
    map k | k in configs :: if BreakerOf(k) == key && k !in todo then configs[k].(enabled := false) else configs[k]
  }

  ghost function FeedsBut(configs: map<ConfigKey, Config>, key: BreakerKey, todo: set<ConfigKey>): set<string> {
    set k | k in configs && BreakerOf(k) == key && k !in todo && configs[k].enabled :: k.feed
  }

  lemma AllDisabled(g: Graph, key: BreakerKey)
    ensures DisabledBut(g.configs, key, {}) == BreakerRemovedFrom(g, key).configs && FeedsBut(g.configs, key, {}) == FeedsOf(g, key)
  {
  }

  lemma NothingDisabled(configs: map<ConfigKey, Config>, key: BreakerKey, todo: set<ConfigKey>)
    requires todo == set k | k in configs && BreakerOf(k) == key
    ensures DisabledBut(configs, key, todo) == configs && FeedsBut(configs, key, todo) == {}
  {
  }

  lemma DisableNext(configs: map<ConfigKey, Config>, key: BreakerKey, todo: set<ConfigKey>, k: ConfigKey)
    requires k in todo && k in configs && BreakerOf(k) == key
    ensures k in DisabledBut(configs, key, todo) && DisabledBut(configs, key, todo)[k] == configs[k]
    ensures DisabledBut(configs, key, todo - {k}) == DisabledBut(configs, key, todo)[k := configs[k].(enabled := false)]
    ensures FeedsBut(configs, key, todo - {k}) == FeedsBut(configs, key, todo) + (if configs[k].enabled then {k.feed} else {})
  {
  }

  lemma RemovedRows(g: Graph, marked: Graph, key: BreakerKey)
    requires marked.configs == g.configs
    ensures BreakerRemovedFrom(g, key).edges == g.edges && BreakerRemovedFrom(g, key).configs == BreakerRemovedFrom(marked, key).configs
    ensures BreakerRemovedFrom(g, key).breakers == if key in g.breakers then g.breakers[key := g.breakers[key].(removed := true)] else g.breakers
    ensures FeedsOf(g, key) == FeedsOf(marked, key)
  {
  }

  lemma FeedsAreLowerCase(g: Graph, key: BreakerKey)
    requires S.LowerCaseConfigs(g.configs)
    ensures forall f :: f in FeedsOf(g, key) ==> AsAddress(f) == f
  {
    hide AsAddress;
  }

  // ---------------------------------------------------------------- names stay in lower case

  ghost predicate Tidy(g: Graph) { S.LowerCaseEdges(g.edges) && S.LowerCaseConfigs(g.configs) }

  lemma TidyReads(g: Graph, after: Graph, chain: int, asked: set<Read>, rpc: Rpc)
    requires Tidy(g) && ReadsDone(g, after, chain, asked, rpc) && forall r :: r in asked ==> AsAddress(r.feed) == r.feed
    ensures Tidy(after)
  {
    hide AsAddress, NewConfig;
    forall k | k in after.configs ensures AsAddress(k.feed) == k.feed {
      if k !in g.configs { assert NewBy(after, k, chain, asked, rpc); }
    }
  }

  lemma TidyBootstrap(g: Graph, c: Caches, chain: int, feed: string, now: int, rpc: Rpc)
    requires Tidy(g) && AsAddress(feed) == feed
    ensures Tidy(Bootstrapped(g, c, chain, feed, now, rpc).graph)
  {
    hide AsAddress, Bootstrapped, ReadsDone, Tidy;
    var asked := if MayTry(c, FeedConfigs(chain, feed), now) && rpc.breakerList.Some? then ReadsOf(rpc.breakerList.value, {feed}) else {};
    BootstrapReads(g, c, chain, feed, now, rpc);
    TidyReads(g, Bootstrapped(g, c, chain, feed, now, rpc).graph, chain, asked, rpc);
  }

  lemma {:induction false} TriedLowerCase(g: Graph, c: Caches, chain: int, feeds: seq<string>, now: int, rpc: Rpc)
    ensures forall f :: f in Tried(g, c, chain, feeds, now, rpc) ==> AsAddress(f) == f
  {
    hide AsAddress, BootstrappedAll;
    if feeds != [] {
      TriedLowerCase(g, c, chain, feeds[..|feeds| - 1], now, rpc);
      S.AddressTwice(feeds[|feeds| - 1]);
    }
  }

  lemma TidyLoad(g: Graph, c: Caches, chain: int, feed: string, now: int, force: bool, rpc: Rpc)
    requires Tidy(g) && AsAddress(feed) == feed
    ensures Tidy(LoadedFrom(g, c, chain, feed, now, force, rpc).graph)
  {
    hide AsAddress, BootstrappedAll, ReadsDone, Tried, Reconciled, S.LowerCaseEdges;
    if feed in rpc.dependencies {
      var deps, linked := rpc.dependencies[feed], Linked(g, chain, feed, rpc);
      S.BreakerStore.WantedLowerCase(g.edges, chain, feed, deps);
      assert Tidy(linked);
      BootstrapAllReads(linked, c, chain, deps, now, rpc);
      TriedLowerCase(linked, c, chain, deps, now, rpc);
      TidyReads(linked, BootstrappedAll(linked, c, chain, deps, now, rpc).graph, chain, ReadsTried(linked, c, chain, deps, now, rpc), rpc);
    }
  }

  lemma TidyOne(g: Graph, k: ConfigKey, rpc: Rpc)
    requires Tidy(g) && AsAddress(k.feed) == k.feed
    ensures Tidy(Ensured(g, k, rpc))
  {
    hide AsAddress, HydratedWith, Tidy, ReadsDone;
    ReadOne(g, k.chain, Read(k.breaker, k.feed), rpc);
    TidyReads(g, Ensured(g, k, rpc), k.chain, {Read(k.breaker, k.feed)}, rpc);
  }

  lemma TidySet(s: State, chain: int, breaker: string, feed: string, rpc: Rpc, change: (Breaker, Config) -> Config)
    requires Tidy(s.graph)
    ensures Tidy(SetAndSynced(s, KeyOf(chain, breaker, feed), rpc, change).graph)
  {
    hide AsAddress, HydratedWith, Synced;
    S.AddressTwice(feed);
    TidyOne(s.graph, KeyOf(chain, breaker, feed), rpc);
  }

  /** Events that add no key keep the names as they are. */
  lemma TidyKeys(g: Graph, after: Graph)
    requires Tidy(g) && after.edges <= g.edges && after.configs.Keys <= g.configs.Keys
    ensures Tidy(after)
  {
    hide AsAddress;
    forall k | k in after.configs ensures AsAddress(k.feed) == k.feed { assert k in g.configs.Keys; }
  }

  /** No event introduces a name in upper case. */
  lemma TidyAfter(s: State, x: Event)
    requires Tidy(s.graph)
    ensures Tidy(After(s, x).graph)
  {
    hide Tidy, AsAddress, Synced, SyncedAll, Bootstrapped, LoadedFrom, Stamped, Changed, SetAndSynced, HydratedWith, BreakersWith, FeedsOf;
    match x
    case TradingModeUpdated(chain, feed, mode, timestamp, rpc) =>
      S.AddressTwice(feed);
      TidyBootstrap(s.graph, s.caches, chain, AsAddress(feed), timestamp, rpc);
      TidyKeys(Bootstrapped(s.graph, s.caches, chain, AsAddress(feed), timestamp, rpc).graph, After(s, x).graph);
    case RateFeedDependenciesSet(chain, feed, timestamp, rpc) =>
      S.AddressTwice(feed);
      TidyLoad(s.graph, s.caches, chain, AsAddress(feed), timestamp, true, rpc);
    case OracleUpdated(chain, feed, timestamp, rpc) =>
      S.AddressTwice(feed);
      TidyBootstrap(s.graph, s.caches, chain, AsAddress(feed), timestamp, rpc);
      var t := ColdStarted(s, chain, AsAddress(feed), timestamp, rpc);
      TidyLoad(t.graph, t.caches, chain, AsAddress(feed), timestamp, false, rpc);
    case BreakerStatusUpdated(chain, breaker, feed, enabled, rpc) =>
      TidySet(s, chain, breaker, feed, rpc, (b: Breaker, c: Config) => c.(enabled := enabled));
    case BreakerTripped(chain, breaker, feed, timestamp, rpc) =>
      TidySet(s, chain, breaker, feed, rpc, (b: Breaker, c: Config) => Stamped(b, c, true, b.activatesTradingMode, timestamp));
    case ResetSuccessful(chain, breaker, feed, timestamp, rpc) =>
      TidySet(s, chain, breaker, feed, rpc, (b: Breaker, c: Config) => Stamped(b, c, false, 0, timestamp));
    case FeedConfigUpdated(chain, breaker, feed, change, rpc) =>
      S.AddressTwice(feed);
      TidyOne(s.graph, KeyOf(chain, breaker, feed), rpc);
      TidyKeys(Ensured(s.graph, KeyOf(chain, breaker, feed), rpc), After(s, x).graph);
    case BreakerAdded(_, _, _) => TidyKeys(s.graph, After(s, x).graph);
    case BreakerRemoved(_, _) => TidyKeys(s.graph, After(s, x).graph);
    case RateFeedRemoved(_, _) => TidyKeys(s.graph, After(s, x).graph);
    case DefaultUpdated(_, _, _, _) => TidyKeys(s.graph, After(s, x).graph);
    case PoolCreated(_, _) =>
    case PoolFoundVirtual(_) =>
    case FeedAssigned(_, _) =>
  }
}
