/** The breaker entities, the pools' halt flags and the bootstrap caches, as the handlers update them. */
module BreakerStore {
  import opened Ordering
  import opened Outcomes
  import opened Breakers
  import opened BreakerHydration
  import opened BreakerEvents

  lemma AddressTwice(s: string)
    ensures AsAddress(AsAddress(s)) == AsAddress(s)
  {
  }

  ghost predicate LowerCaseEdges(edges: set<Edge>) {
    forall e :: e in edges ==> AsAddress(e.feed) == e.feed && AsAddress(e.dependsOn) == e.dependsOn
  }

  ghost predicate LowerCaseConfigs(configs: map<ConfigKey, Config>) {
    forall k :: k in configs ==> AsAddress(k.feed) == k.feed
  }

  class BootstrapCaches {
    var attempted: seq<CacheKey>
    var backoffUntil: map<CacheKey, int>
    var backoffOrder: seq<CacheKey>

    ghost function View(): Caches
      reads this
    {
      Caches(attempted, backoffUntil, backoffOrder)
    }

    /** Bounded, and the backoff times are listed in order of first insertion. */
    ghost predicate Valid()
      reads this
    {
      Bounded(View())
    }

    constructor ()
      ensures Valid() && View() == NO_CACHES
    {
      attempted, backoffUntil, backoffOrder := [], map[], [];
    }

    method DropBackoff(key: CacheKey)
      requires Valid()
      modifies this`backoffUntil, this`backoffOrder
      ensures Valid() && View() == Dropped(old(View()), key)
    {
      DroppedIsBounded(View(), key);
      var rest: seq<CacheKey> := [];
      for i := 0 to |backoffOrder|
        invariant rest == Without(backoffOrder[..i], key)
      {
        assert backoffOrder[..i + 1][..i] == backoffOrder[..i] && backoffOrder[..i + 1][i] == backoffOrder[i];
        if backoffOrder[i] != key { rest := rest + [backoffOrder[i]]; }
      }
      assert backoffOrder[..|backoffOrder|] == backoffOrder;
      backoffOrder := rest;
      backoffUntil := backoffUntil - {key};
    }

    method MarkBootstrapAttempted(key: CacheKey)
      requires Valid()
      modifies this
      ensures Valid() && View() == Marked(old(View()), key)
    {
      MarkedIsBounded(View(), key);
      if |attempted| >= BOOTSTRAP_ATTEMPTED_MAX && key !in attempted {
        var oldest := attempted[0];
        DistinctTail(attempted);
        attempted := attempted[1..];
        DropBackoff(oldest);
      }
      if key !in attempted { attempted := attempted + [key]; }
    }

    method Forget(key: CacheKey)
      requires Valid()
      modifies this`attempted
      ensures Valid() && View() == Forgotten(old(View()), key)
    {
      ForgottenIsBounded(View(), key);
      var rest: seq<CacheKey> := [];
      for i := 0 to |attempted|
        invariant rest == Without(attempted[..i], key)
      {
        assert attempted[..i + 1][..i] == attempted[..i] && attempted[..i + 1][i] == attempted[i];
        if attempted[i] != key { rest := rest + [attempted[i]]; }
      }
      assert attempted[..|attempted|] == attempted;
      attempted := rest;
    }

    method SetBootstrapBackoff(key: CacheKey, untilTs: int)
      requires Valid()
      modifies this`backoffUntil, this`backoffOrder
      ensures Valid() && View() == Backed(old(View()), key, untilTs)
    {
      BackedIsBounded(View(), key, untilTs);
      if |backoffOrder| >= BOOTSTRAP_ATTEMPTED_MAX && key !in backoffUntil { DropBackoff(backoffOrder[0]); }
      if key !in backoffUntil { backoffOrder := backoffOrder + [key]; }
      backoffUntil := backoffUntil[key := untilTs];
    }
  }

  class BreakerStore {
    var breakers: map<BreakerKey, Breaker>
    var configs: map<ConfigKey, Config>
    var edges: set<Edge>
    var pools: map<string, Pool>
    const caches: BootstrapCaches

    ghost function Now(): Graph
      reads this
    {
      Graph(breakers, configs, edges)
    }

    ghost function View(): State
      reads this, caches
    {
      State(Now(), pools, caches.View())
    }

    /** Rows name feeds in lower case, and the caches are bounded. */
    ghost predicate Valid()
      reads this, caches
    {
      LowerCaseEdges(edges) && LowerCaseConfigs(configs) && caches.Valid()
    }

    constructor ()
      ensures Valid() && fresh(caches) && View() == EMPTY
    {
      breakers, configs, edges, pools := map[], map[], {}, map[];
      caches := new BootstrapCaches();
    }

    // -------------------------------------------------------------- halts

    method ComputeOwnFeedHalted(chain: int, rateFeedID: string) returns (halted: bool)
      ensures halted == OwnHalted(Now(), chain, AsAddress(rateFeedID))
    {
      hide AsAddress;
      var feed := AsAddress(rateFeedID);
      var todo := set k | k in configs && k.chain == chain && k.feed == feed;
      while todo != {}
        invariant forall k :: k in todo ==> k in configs && k.chain == chain && k.feed == feed
        invariant forall k :: k in configs && k.chain == chain && k.feed == feed && k !in todo ==> !Halts(Now(), k)
        decreases |todo|
      {
        var k :| k in todo;
        todo := todo - {k};
        if !configs[k].enabled || !configs[k].tripped { continue; }
        if BreakerOf(k) !in breakers || breakers[BreakerOf(k)].kind == MarketHours { continue; }
        assert Halts(Now(), k);
        return true;
      }
      halted := false;
    }

    method ComputeFeedHalted(chain: int, rateFeedID: string) returns (halted: bool)
      requires LowerCaseEdges(edges)
      ensures halted == Halted(Now(), chain, AsAddress(rateFeedID))
    {
      hide AsAddress, OwnHalted;
      var feed := AsAddress(rateFeedID);
      var own := ComputeOwnFeedHalted(chain, rateFeedID);
      if own { return true; }
      var todo := set e | e in edges && e.feed == feed;
      while todo != {}
        invariant todo <= edges
        invariant forall e :: e in edges && e.chain == chain && e.feed == feed && e !in todo ==> !OwnHalted(Now(), chain, e.dependsOn)
        invariant forall e :: e in todo ==> e.feed == feed
        decreases |todo|
      {
        var e :| e in todo;
        todo := todo - {e};
        if e.chain != chain { continue; }
        var dependency := ComputeOwnFeedHalted(chain, e.dependsOn);
        if dependency { return true; }
      }
      halted := false;
    }

    method RecomputeFeedPools(chain: int, rateFeedID: string)
      requires LowerCaseEdges(edges) && AsAddress(rateFeedID) == rateFeedID
      modifies this`pools
      ensures pools == FeedRecomputed(Now(), old(pools), chain, rateFeedID)
    {
      hide AsAddress, Halted, LowerCaseEdges, RecomputedPool, RecomputedBut, FeedRecomputed;
      var halted := ComputeFeedHalted(chain, rateFeedID);
      var todo := set id | id in pools && pools[id].chain == chain && pools[id].feed == rateFeedID;
      OtherPools(Now(), pools, chain, rateFeedID, todo);
      while todo != {}
        invariant forall id :: id in todo ==> id in pools && id in old(pools) && pools[id] == old(pools)[id] && pools[id].chain == chain && pools[id].feed == rateFeedID
        invariant pools == RecomputedBut(Now(), old(pools), chain, rateFeedID, todo)
        decreases |todo|
      {
        var id :| id in todo;
        RecomputeNext(Now(), old(pools), chain, rateFeedID, todo, id);
        todo := todo - {id};
        OwnPool(Now(), pools[id], chain, rateFeedID);
        if pools[id].breakerTripped == halted || pools[id].isVirtual {
          assert pools == pools[id := pools[id]];
          continue;
        }
        pools := pools[id := pools[id].(breakerTripped := halted)];
      }
      AllRecomputed(Now(), old(pools), chain, rateFeedID);
    }

    static ghost function RecomputedBut(g: Graph, pools: map<string, Pool>, chain: int, feed: string, todo: set<string>): map<string, Pool> {
      map id | id in pools :: if id in todo then pools[id] else RecomputedPool(g, pools[id], chain, feed)
    }

    static lemma OtherPools(g: Graph, pools: map<string, Pool>, chain: int, feed: string, todo: set<string>)
      requires todo == set id | id in pools && pools[id].chain == chain && pools[id].feed == feed
      ensures RecomputedBut(g, pools, chain, feed, todo) == pools
    {
      hide Halted;
    }

    static lemma RecomputeNext(g: Graph, pools: map<string, Pool>, chain: int, feed: string, todo: set<string>, id: string)
      requires id in todo && id in pools
      ensures RecomputedBut(g, pools, chain, feed, todo - {id}) == RecomputedBut(g, pools, chain, feed, todo)[id := RecomputedPool(g, pools[id], chain, feed)]
    {
      hide RecomputedPool;
    }

    static lemma AllRecomputed(g: Graph, pools: map<string, Pool>, chain: int, feed: string)
      ensures RecomputedBut(g, pools, chain, feed, {}) == FeedRecomputed(g, pools, chain, feed)
    {
      hide RecomputedPool;
    }

    static lemma OwnPool(g: Graph, p: Pool, chain: int, feed: string)
      requires p.chain == chain && p.feed == feed
      ensures RecomputedPool(g, p, chain, feed) ==
        if p.breakerTripped == Halted(g, chain, feed) || p.isVirtual then p else p.(breakerTripped := Halted(g, chain, feed))
    {
      hide Halted;
    }

    static ghost function RecomputedPool(g: Graph, p: Pool, chain: int, feed: string): Pool {
      if p.chain == chain && p.feed == feed && !p.isVirtual then p.(breakerTripped := Halted(g, chain, feed)) else p
    }

    static ghost function FeedRecomputed(g: Graph, pools: map<string, Pool>, chain: int, feed: string): map<string, Pool> {
      map id | id in pools :: RecomputedPool(g, pools[id], chain, feed)
    }

    /** Recomputes the feed's pools and, one hop back along the edges, those of its dependents. */
    method SyncPoolsBreakerHalt(chain: int, rateFeedID: string)
      requires LowerCaseEdges(edges)
      modifies this`pools
      ensures pools == Synced(Now(), old(pools), chain, AsAddress(rateFeedID))
    {
      hide AsAddress, Halted, LowerCaseEdges, PartlySynced, Synced, FeedRecomputed;
      var feed := AsAddress(rateFeedID);
      AddressTwice(rateFeedID);
      RecomputeFeedPools(chain, feed);
      var todo := set e | e in edges && e.dependsOn == feed;
      ghost var done: set<string> := {feed};
      FirstSynced(Now(), old(pools), chain, feed);
      while todo != {}
        invariant todo <= edges && feed in done && (forall e :: e in todo ==> e.dependsOn == feed)
        invariant forall f :: f in done && f != feed ==> Edge(chain, f, feed) in edges
        invariant forall e :: e in edges && e.dependsOn == feed && e.chain == chain && e !in todo ==> e.feed in done
        invariant pools == PartlySynced(Now(), old(pools), chain, done)
        decreases |todo|
      {
        var e :| e in todo;
        todo := todo - {e};
        if e.chain != chain { continue; }
        EdgeIsLowerCase(edges, e);
        NextSynced(Now(), old(pools), chain, done, e.feed);
        RecomputeFeedPools(chain, e.feed);
        assert e == Edge(chain, e.feed, feed);
        done := done + {e.feed};
      }
      AllSynced(Now(), old(pools), chain, feed, done);
    }

    static lemma EdgeIsLowerCase(edges: set<Edge>, e: Edge)
      requires LowerCaseEdges(edges) && e in edges
      ensures AsAddress(e.feed) == e.feed
    {
    }

    static ghost function PartlySynced(g: Graph, pools: map<string, Pool>, chain: int, done: set<string>): map<string, Pool> {
      map id | id in pools ::
        if pools[id].chain == chain && pools[id].feed in done && !pools[id].isVirtual
        then pools[id].(breakerTripped := Halted(g, chain, pools[id].feed)) else pools[id]
    }

    static lemma FirstSynced(g: Graph, pools: map<string, Pool>, chain: int, feed: string)
      ensures FeedRecomputed(g, pools, chain, feed) == PartlySynced(g, pools, chain, {feed})
    {
      hide Halted;
    }

    static lemma NextSynced(g: Graph, pools: map<string, Pool>, chain: int, done: set<string>, feed: string)
      ensures FeedRecomputed(g, PartlySynced(g, pools, chain, done), chain, feed) == PartlySynced(g, pools, chain, done + {feed})
    {
      hide Halted;
    }

    static lemma AllSynced(g: Graph, pools: map<string, Pool>, chain: int, feed: string, done: set<string>)
      requires feed in done && forall f :: f in done && f != feed ==> Edge(chain, f, feed) in g.edges
      requires forall e :: e in g.edges && e.dependsOn == feed && e.chain == chain ==> e.feed in done
      ensures PartlySynced(g, pools, chain, done) == Synced(g, pools, chain, feed)
    {
      hide Halted;
      forall id | id in pools && pools[id].chain == chain ensures pools[id].feed in done <==> Recomputed(g, chain, feed, pools[id]) {}
    }

    /** Removing a feed disables its configs, drops its own edges and resyncs; all flags stay right. */
    method ClearHaltOnFeedRemoved(chain: int, rateFeedID: string)
      requires Valid()
      modifies this`configs, this`edges, this`pools
      ensures Valid() && View() == After(old(View()), RateFeedRemoved(chain, rateFeedID))
      ensures old(FlagsAgree(Now(), pools) && BreakersKnown(Now())) ==> FlagsAgree(Now(), pools) && !Halted(Now(), chain, AsAddress(rateFeedID))
    {
      hide AsAddress, Halted, FlagsAgree, LowerCaseEdges, Synced, BreakersKnown, Bounded;
      var feed := AsAddress(rateFeedID);
      DisableConfigs(chain, feed);
      AddressTwice(rateFeedID);
      LowerCaseKept(edges, chain, feed, {});
      edges := set e | e in edges && !(e.chain == chain && e.feed == feed);
      SyncPoolsBreakerHalt(chain, feed);
      if old(FlagsAgree(Now(), pools) && BreakersKnown(Now())) { RemovalUnhalts(old(Now()), old(pools), chain, feed); }
    }

    method DisableConfigs(chain: int, feed: string)
      modifies this`configs
      ensures configs == FeedRemoved(old(Now()), chain, feed).configs
    {
      var todo := set k | k in configs && k.chain == chain && k.feed == feed;
      while todo != {}
        invariant configs.Keys == old(configs).Keys && todo <= configs.Keys
        invariant forall k :: k in todo ==> k.chain == chain && k.feed == feed && configs[k] == old(configs)[k]
        invariant forall k :: k in configs && k !in todo ==>
          configs[k] == if k.chain == chain && k.feed == feed then old(configs)[k].(enabled := false) else old(configs)[k]
        decreases |todo|
      {
        var k :| k in todo;
        todo := todo - {k};
        if configs[k].enabled { configs := configs[k := configs[k].(enabled := false)]; }
      }
    }

    static lemma LowerCaseKept(edges: set<Edge>, chain: int, feed: string, wanted: set<string>)
      requires LowerCaseEdges(edges) && AsAddress(feed) == feed && forall d :: d in wanted ==> AsAddress(d) == d
      ensures LowerCaseEdges(Reconciled(edges, chain, feed, wanted))
      ensures LowerCaseEdges(set e | e in edges && !(e.chain == chain && e.feed == feed))
    {
    }

    // -------------------------------------------------------------- dependency edges

    method ReconcileDependencyEdges(chain: int, rateFeedID: string, deps: seq<string>)
      modifies this`edges
      ensures edges == Reconciled(old(edges), chain, AsAddress(rateFeedID), Addresses(deps))
    {
      hide AsAddress, Addresses, Reconciled;
      var feed := AsAddress(rateFeedID);
      var want: set<string> := {};
      assert Addresses(deps[..0]) == {} by { NoAddresses(deps[..0]); }
      for i := 0 to |deps|
        invariant want == Addresses(deps[..i]) && edges == old(edges)
      {
        assert deps[..i + 1] == deps[..i] + [deps[i]];
        AddressesAppend(deps[..i], deps[i]);
        want := want + {AsAddress(deps[i])};
      }
      assert deps[..|deps|] == deps;
      edges := set e | e in edges && !(e.chain == chain && e.feed == feed && e.dependsOn !in want);
      ghost var kept := edges;
      var todo := want;
      ghost var done: set<string> := {};
      while todo != {}
        invariant done + todo == want && edges == kept + (set d | d in done :: Edge(chain, feed, d))
        decreases |todo|
      {
        var d :| d in todo;
        edges := edges + {Edge(chain, feed, d)};
        todo := todo - {d};
        done := done + {d};
      }
      assert done == want;
      ReplacedEdges(old(edges), kept, chain, feed, want);
    }

    static lemma NoAddresses(none: seq<string>)
      requires none == []
      ensures Addresses(none) == {}
    {
    }

    /** Dropping the unwanted edges and adding the wanted ones replaces the feed's edges. */
    static lemma ReplacedEdges(edges: set<Edge>, kept: set<Edge>, chain: int, feed: string, want: set<string>)
      requires kept == set e | e in edges && !(e.chain == chain && e.feed == feed && e.dependsOn !in want)
      ensures kept + (set d | d in want :: Edge(chain, feed, d)) == Reconciled(edges, chain, feed, want)
    {
      forall e ensures e in kept + (set d | d in want :: Edge(chain, feed, d)) <==> e in Reconciled(edges, chain, feed, want) {
        assert e == Edge(e.chain, e.feed, e.dependsOn);
      }
    }

    // -------------------------------------------------------------- hydration

    method EnsureBreaker(chain: int, address: string, rpc: Rpc) returns (b: Option<Breaker>)
      modifies this`breakers
      ensures breakers == BreakersWith(old(breakers), BreakerKey(chain, AsAddress(address)), rpc)
      ensures b == Lookup(breakers, BreakerKey(chain, AsAddress(address)))
    {
      hide AsAddress;
      var key := BreakerKey(chain, AsAddress(address));
      if key in breakers { return Some(breakers[key]); }
      if key.address !in rpc.breakers { return None; }
      breakers := breakers[key := rpc.breakers[key.address]];
      b := Some(rpc.breakers[key.address]);
    }

    method EnsureBreakerConfig(chain: int, address: string, breaker: Breaker, rateFeedID: string, rpc: Rpc) returns (cfg: Option<Config>)
      modifies this`configs
      ensures
        var key := ConfigKey(chain, AsAddress(address), AsAddress(rateFeedID));
        && configs == (if key in old(configs) || (key.breaker, key.feed) !in rpc.feedStates then old(configs)
                       else old(configs)[key := NewConfig(breaker, rpc.feedStates[(key.breaker, key.feed)])])
        && cfg == Lookup(configs, key)
    {
      hide AsAddress;
      var key := ConfigKey(chain, AsAddress(address), AsAddress(rateFeedID));
      if key in configs { return Some(configs[key]); }
      if (key.breaker, key.feed) !in rpc.feedStates { return None; }
      cfg := Some(NewConfig(breaker, rpc.feedStates[(key.breaker, key.feed)]));
      configs := configs[key := cfg.value];
    }

    /** Reads the registered breakers and a config row for each. */
    method BootstrapFeedBreakerConfigs(chain: int, rateFeedID: string, now: int, rpc: Rpc) returns (hydrated: bool)
      requires caches.Valid()
      modifies this`breakers, this`configs, caches
      ensures caches.Valid() && Boot(Now(), caches.View(), hydrated) == Bootstrapped(old(Now()), old(caches.View()), chain, AsAddress(rateFeedID), now, rpc)
    {
      hide AsAddress, HydratedWithAll, AllAnswered, Marked, Backed, Dropped, Bounded;
      var feed := AsAddress(rateFeedID);
      var cacheKey := FeedConfigs(chain, feed);
      if cacheKey in caches.attempted { return true; }
      if cacheKey in caches.backoffUntil && now < caches.backoffUntil[cacheKey] { return false; }
      if rpc.breakerList.None? {
        caches.SetBootstrapBackoff(cacheKey, now + BOOTSTRAP_BACKOFF_SECONDS);
        return false;
      }
      var addresses := rpc.breakerList.value;
      if |addresses| == 0 {
        NothingToRead(Now(), chain, feed, addresses, rpc);
        caches.MarkBootstrapAttempted(cacheKey);
        caches.DropBackoff(cacheKey);
        return true;
      }
      var allSucceeded := ReadBreakers(chain, rateFeedID, addresses, rpc);
      if allSucceeded {
        caches.MarkBootstrapAttempted(cacheKey);
        caches.DropBackoff(cacheKey);
      } else {
        caches.SetBootstrapBackoff(cacheKey, now + BOOTSTRAP_BACKOFF_SECONDS);
      }
      hydrated := allSucceeded;
    }

    static lemma NothingToRead(g: Graph, chain: int, feed: string, none: seq<string>, rpc: Rpc)
      requires none == []
      ensures HydratedWithAll(g, chain, feed, none, rpc) == g && AllAnswered(g, chain, feed, none, rpc)
    {
    }

    /** The loop over the registered breakers; a failed read does not stop it. */
    method ReadBreakers(chain: int, rateFeedID: string, addresses: seq<string>, rpc: Rpc) returns (allSucceeded: bool)
      modifies this`breakers, this`configs
      ensures Now() == HydratedWithAll(old(Now()), chain, AsAddress(rateFeedID), addresses, rpc)
      ensures allSucceeded <==> AllAnswered(old(Now()), chain, AsAddress(rateFeedID), addresses, rpc)
    {
      hide AsAddress, HydratedWith, NewConfig, Answered, ReadsDone;
      var feed := AsAddress(rateFeedID);
      ghost var g0 := Now();
      allSucceeded := true;
      for i := 0 to |addresses|
        invariant edges == g0.edges && Now() == HydratedWithAll(g0, chain, feed, addresses[..i], rpc)
        invariant allSucceeded <==> AllAnswered(g0, chain, feed, addresses[..i], rpc)
      {
        ghost var g := Now();
        ghost var r := Read(AsAddress(addresses[i]), feed);
        ReadList(g0, chain, feed, addresses[..i], rpc);
        assert addresses[..i + 1][..i] == addresses[..i] && addresses[..i + 1][i] == addresses[i] && addresses[..i + 1] == addresses[..i] + [addresses[i]];
        var breaker := EnsureBreaker(chain, addresses[i], rpc);
        if breaker.None? {
          NoBreaker(g0, g, chain, ReadsOf(addresses[..i], {feed}), r, rpc);
          allSucceeded := false;
          continue;
        }
        var cfg := EnsureBreakerConfig(chain, addresses[i], breaker.value, rateFeedID, rpc);
        ReadBoth(g0, g, Now(), chain, ReadsOf(addresses[..i], {feed}), r, breaker.value, rpc);
        if cfg.None? { allSucceeded := false; }
      }
      assert addresses[..|addresses|] == addresses;
    }

    static lemma NoBreaker(g0: Graph, g: Graph, chain: int, asked: set<Read>, r: Read, rpc: Rpc)
      requires ReadsDone(g0, g, chain, asked, rpc) && BreakerKey(chain, r.breaker) !in BreakersWith(g.breakers, BreakerKey(chain, r.breaker), rpc)
      ensures HydratedWith(g, chain, r.feed, r.breaker, rpc) == g && !Answered(g0, chain, r, rpc)
    {
    }

    static lemma ReadBoth(g0: Graph, g: Graph, after: Graph, chain: int, asked: set<Read>, r: Read, breaker: Breaker, rpc: Rpc)
      requires ReadsDone(g0, g, chain, asked, rpc) && after.edges == g.edges
      requires
        var b, k := BreakerKey(chain, r.breaker), ConfigKey(chain, r.breaker, r.feed);
        && after.breakers == BreakersWith(g.breakers, b, rpc) && Lookup(after.breakers, b) == Some(breaker)
        && after.configs == (if k in g.configs || (r.breaker, r.feed) !in rpc.feedStates then g.configs
                             else g.configs[k := NewConfig(breaker, rpc.feedStates[(r.breaker, r.feed)])])
      ensures after == HydratedWith(g, chain, r.feed, r.breaker, rpc)
      ensures Answered(g0, chain, r, rpc) <==> ConfigKey(chain, r.breaker, r.feed) in after.configs
    {
    }

    /** Reconciles the feed's edges with the chain and bootstraps each dependency. */
    method LoadFeedDependencies(chain: int, rateFeedID: string, now: int, force: bool, rpc: Rpc) returns (loaded: bool)
      requires LowerCaseEdges(edges) && caches.Valid()
      modifies this`breakers, this`configs, this`edges, caches
      ensures LowerCaseEdges(edges) && caches.Valid()
      ensures Load(Now(), caches.View(), loaded) == LoadedFrom(old(Now()), old(caches.View()), chain, AsAddress(rateFeedID), now, force, rpc)
    {
      hide AsAddress, LowerCaseEdges, Reconciled, Bootstrapped, Marked, Backed, Dropped, Forgotten, Bounded;
      var feed := AsAddress(rateFeedID);
      var cacheKey := Dependencies(chain, feed);
      if !force {
        if cacheKey in caches.attempted { return false; }
        if cacheKey in caches.backoffUntil && now < caches.backoffUntil[cacheKey] { return false; }
      }
      if feed !in rpc.dependencies {
        caches.SetBootstrapBackoff(cacheKey, now + BOOTSTRAP_BACKOFF_SECONDS);
        if force { caches.Forget(cacheKey); }
        return false;
      }
      var deps := rpc.dependencies[feed];
      WantedLowerCase(edges, chain, rateFeedID, deps);
      ReconcileDependencyEdges(chain, rateFeedID, deps);
      ghost var linked, c := Now(), caches.View();
      var allHydrated := true;
      for i := 0 to |deps|
        invariant caches.Valid() && edges == linked.edges && LowerCaseEdges(edges)
        invariant Boot(Now(), caches.View(), allHydrated) == BootstrappedAll(linked, c, chain, deps[..i], now, rpc)
      {
        assert deps[..i + 1][..i] == deps[..i] && deps[..i + 1][i] == deps[i];
        ghost var g, d := Now(), caches.View();
        var hydrated := BootstrapFeedBreakerConfigs(chain, deps[i], now, rpc);
        assert edges == g.edges by { BootstrapReads(g, d, chain, AsAddress(deps[i]), now, rpc); }
        if !hydrated { allHydrated := false; }
      }
      assert deps[..|deps|] == deps;
      if allHydrated {
        caches.MarkBootstrapAttempted(cacheKey);
        caches.DropBackoff(cacheKey);
      } else {
        caches.SetBootstrapBackoff(cacheKey, now + BOOTSTRAP_BACKOFF_SECONDS);
        if force { caches.Forget(cacheKey); }
      }
      loaded := true;
    }

    static lemma WantedLowerCase(edges: set<Edge>, chain: int, rateFeedID: string, deps: seq<string>)
      requires LowerCaseEdges(edges)
      ensures LowerCaseEdges(Reconciled(edges, chain, AsAddress(rateFeedID), Addresses(deps)))
    {
      hide Reconciled, LowerCaseEdges;
      AddressTwice(rateFeedID);
      forall d | d in Addresses(deps) ensures AsAddress(d) == d {
        var a :| a in deps && AsAddress(a) == d;
        AddressTwice(a);
      }
      LowerCaseKept(edges, chain, AsAddress(rateFeedID), Addresses(deps));
    }

    /** Cold start of the dependency graph. */
    method SyncDependencyHaltOnColdStart(chain: int, rateFeedID: string, now: int, hasPools: bool, rpc: Rpc)
      requires LowerCaseEdges(edges) && caches.Valid()
      modifies this, caches
      ensures LowerCaseEdges(edges) && caches.Valid()
      ensures
        var l := LoadedFrom(old(Now()), old(caches.View()), chain, AsAddress(rateFeedID), now, false, rpc);
        && Now() == (if hasPools then l.graph else old(Now())) && caches.View() == (if hasPools then l.caches else old(caches.View()))
        && pools == (if hasPools && l.loaded then Synced(Now(), old(pools), chain, AsAddress(rateFeedID)) else old(pools))
      ensures old(FlagsAgree(Now(), pools) && BreakersKnown(Now())) ==>
        (FlagsAgree(Now(), pools) <==> !(hasPools && old(LoadBreaks(Now(), caches.View(), pools, chain, AsAddress(rateFeedID), now, false, rpc))))
    {
      hide AsAddress, LoadedFrom, Synced, LowerCaseEdges, Bounded, FlagsAgree, BreakersKnown, LoadBreaks, Loads;
      if FlagsAgree(Now(), pools) && BreakersKnown(Now()) {
        LoadKeepsFlagsExactly(Now(), caches.View(), pools, chain, AsAddress(rateFeedID), now, false, rpc);
        NothingLoaded(Now(), caches.View(), pools, chain, AsAddress(rateFeedID), now, rpc);
      }
      if !hasPools { return; }
      var loaded := LoadFeedDependencies(chain, rateFeedID, now, false, rpc);
      if loaded { SyncPoolsBreakerHalt(chain, rateFeedID); }
    }

    static lemma NothingLoaded(g: Graph, c: Caches, pools: map<string, Pool>, chain: int, feed: string, now: int, rpc: Rpc)
      ensures !Loads(c, chain, feed, now, false, rpc) ==> !LoadBreaks(g, c, pools, chain, feed, now, false, rpc)
    {
    }

    // -------------------------------------------------------------- cooldowns

    method HandleDefaultCooldownTimeUpdated(chain: int, address: string, newDefault: int, rpc: Rpc)
      modifies this`breakers, this`configs
      ensures View() == After(old(View()), DefaultUpdated(chain, address, DefaultCooldown(newDefault), rpc))
    {
      hide AsAddress;
      var key := BreakerKey(chain, AsAddress(address));
      var breaker := EnsureBreaker(chain, address, rpc);
      if breaker.None? || breaker.value.defaultCooldown == newDefault { return; }
      breakers := breakers[key := breaker.value.(defaultCooldown := newDefault)];
      RefreshAllInheritingCooldowns(key, breakers[key]);
    }

    method HandleDefaultRateChangeThresholdUpdated(chain: int, address: string, newDefault: int, rpc: Rpc)
      modifies this`breakers
      ensures View() == After(old(View()), DefaultUpdated(chain, address, DefaultThreshold(newDefault), rpc))
    {
      hide AsAddress;
      var key := BreakerKey(chain, AsAddress(address));
      var breaker := EnsureBreaker(chain, address, rpc);
      if breaker.None? { return; }
      if breaker.value.defaultThreshold == newDefault {
        assert breakers == breakers[key := breaker.value.(defaultThreshold := newDefault)];
        return;
      }
      breakers := breakers[key := breaker.value.(defaultThreshold := newDefault)];
    }

    method RefreshAllInheritingCooldowns(key: BreakerKey, breaker: Breaker)
      modifies this`configs
      ensures configs == Refreshed(old(configs), key, breaker.defaultCooldown)
    {
      hide ComputeCooldownEndsAt, Refreshed, RefreshedConfig;
      ghost var was := configs;
      var todo := set k | k in configs && BreakerOf(k) == key;
      OthersNotRefreshed(was, key, breaker.defaultCooldown);
      while todo != {}
        invariant configs.Keys == was.Keys && todo <= was.Keys
        invariant forall k :: k in todo ==> BreakerOf(k) == key && configs[k] == was[k]
        invariant forall k :: k in configs && k !in todo ==> configs[k] == RefreshedConfig(was, k, key, breaker.defaultCooldown)
        decreases |todo|
      {
        var k :| k in todo;
        todo := todo - {k};
        OwnRefreshed(was, k, key, breaker.defaultCooldown);
        if configs[k].cooldownTime > 0 { continue; }
        var nextEnds := ComputeCooldownEndsAt(configs[k].lastStatusUpdatedAt, breaker.defaultCooldown);
        if nextEnds != configs[k].cooldownEndsAt { configs := configs[k := configs[k].(cooldownEndsAt := nextEnds)]; }
      }
      AllRefreshed(was, configs, key, breaker.defaultCooldown);
    }

    static lemma OthersNotRefreshed(configs: map<ConfigKey, Config>, key: BreakerKey, cooldown: int)
      ensures forall k :: k in configs && BreakerOf(k) != key ==> RefreshedConfig(configs, k, key, cooldown) == configs[k]
    {
    }

    static lemma OwnRefreshed(configs: map<ConfigKey, Config>, k: ConfigKey, key: BreakerKey, cooldown: int)
      requires k in configs && BreakerOf(k) == key
      ensures RefreshedConfig(configs, k, key, cooldown) ==
        if configs[k].cooldownTime > 0 then configs[k]
        else configs[k].(cooldownEndsAt := ComputeCooldownEndsAt(configs[k].lastStatusUpdatedAt, cooldown))
    {
    }

    static lemma AllRefreshed(was: map<ConfigKey, Config>, configs: map<ConfigKey, Config>, key: BreakerKey, cooldown: int)
      requires configs.Keys == was.Keys && forall k :: k in configs ==> configs[k] == RefreshedConfig(was, k, key, cooldown)
      ensures configs == Refreshed(was, key, cooldown)
    {
      hide RefreshedConfig;
    }

    /** The rows of a config event; without both of them the handler ends. */
    method EnsureBoth(chain: int, address: string, rateFeedID: string, rpc: Rpc) returns (both: Option<(Breaker, Config)>)
      modifies this`breakers, this`configs
      ensures
        var k := KeyOf(chain, address, rateFeedID);
        && Now() == Ensured(old(Now()), k, rpc) && (both.Some? <==> Known(Now(), k))
        && (both.Some? ==> both.value == (breakers[BreakerOf(k)], configs[k]))
    {
      hide AsAddress, NewConfig;
      var breaker := EnsureBreaker(chain, address, rpc);
      if breaker.None? { return None; }
      var cfg := EnsureBreakerConfig(chain, address, breaker.value, rateFeedID, rpc);
      if cfg.None? { return None; }
      both := Some((breaker.value, cfg.value));
    }

    /** The per-feed override is stored even where the effective cooldown does not move. */
    method HandleRateFeedCooldownTimeUpdated(chain: int, address: string, rateFeedID: string, newCooldown: int, rpc: Rpc)
      modifies this`breakers, this`configs
      ensures View() == After(old(View()), FeedConfigUpdated(chain, address, rateFeedID, Cooldown(newCooldown), rpc))
      ensures old(FlagsRight(View()) && Sound(Now())) ==>
        Sound(Now()) && (FlagsRight(View()) <==> !old(Breaks(View(), FeedConfigUpdated(chain, address, rateFeedID, Cooldown(newCooldown), rpc))))
    {
      hide AsAddress, Ensured, FlagsRight, Sound, Breaks;
      if FlagsRight(View()) && Sound(Now()) { EventIsRightExactly(View(), FeedConfigUpdated(chain, address, rateFeedID, Cooldown(newCooldown), rpc)); }
      var k := KeyOf(chain, address, rateFeedID);
      var both := EnsureBoth(chain, address, rateFeedID, rpc);
      if both.None? { return; }
      var (breaker, cfg) := both.value;
      if cfg.cooldownTime == newCooldown {
        assert configs == configs[k := cfg];
        return;
      }
      configs := configs[k := cfg.(cooldownTime := newCooldown)];
      RefreshCooldownEndsAt(k);
    }

    method RefreshCooldownEndsAt(k: ConfigKey)
      requires k in configs
      modifies this`configs
      ensures configs == if BreakerOf(k) !in breakers then old(configs) else old(configs)[k := old(configs)[k].(
        cooldownEndsAt := ComputeCooldownEndsAt(old(configs)[k].lastStatusUpdatedAt, EffectiveCooldown(breakers[BreakerOf(k)].defaultCooldown, old(configs)[k].cooldownTime)))]
    {
      if BreakerOf(k) !in breakers { return; }
      var nextEnds := ComputeCooldownEndsAt(configs[k].lastStatusUpdatedAt, EffectiveCooldown(breakers[BreakerOf(k)].defaultCooldown, configs[k].cooldownTime));
      if nextEnds == configs[k].cooldownEndsAt {
        assert configs == configs[k := configs[k].(cooldownEndsAt := nextEnds)];
        return;
      }
      configs := configs[k := configs[k].(cooldownEndsAt := nextEnds)];
    }

    method HandleRateChangeThresholdUpdated(chain: int, address: string, rateFeedID: string, newThreshold: int, rpc: Rpc)
      modifies this`breakers, this`configs
      ensures View() == After(old(View()), FeedConfigUpdated(chain, address, rateFeedID, Threshold(newThreshold), rpc))
      ensures old(FlagsRight(View()) && Sound(Now())) ==>
        Sound(Now()) && (FlagsRight(View()) <==> !old(Breaks(View(), FeedConfigUpdated(chain, address, rateFeedID, Threshold(newThreshold), rpc))))
    {
      hide AsAddress, Ensured, FlagsRight, Sound, Breaks;
      if FlagsRight(View()) && Sound(Now()) { EventIsRightExactly(View(), FeedConfigUpdated(chain, address, rateFeedID, Threshold(newThreshold), rpc)); }
      var k := KeyOf(chain, address, rateFeedID);
      var both := EnsureBoth(chain, address, rateFeedID, rpc);
      if both.None? { return; }
      var (breaker, cfg) := both.value;
      if cfg.threshold == newThreshold {
        assert configs == configs[k := cfg];
        return;
      }
      configs := configs[k := cfg.(threshold := newThreshold)];
    }
  }
}
