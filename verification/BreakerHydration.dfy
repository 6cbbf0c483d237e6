/** Reading breakers and configs from the chain when rows are missing, under the caches that say
    when to try, and what such reads do to the halts. */
module BreakerHydration {
  import opened Ordering
  import opened Outcomes
  import opened Breakers

  // ---------------------------------------------------------------- what the chain answers

  /** The answers at one block, by lower-case address; a missing answer is a failed read. */
  datatype FeedReply = FeedReply(enabled: bool, tradingMode: int, cooldownTime: int, threshold: int, lastStatusUpdatedAt: int)
  datatype Rpc = Rpc(
    breakerList: Option<seq<string>>, breakers: map<string, Breaker>,
    feedStates: map<(string, string), FeedReply>, dependencies: map<string, seq<string>>)

  function Addresses(list: seq<string>): set<string> {
    set a | a in list :: AsAddress(a)
  }

  lemma AddressesAppend(list: seq<string>, a: string)
    ensures Addresses(list + [a]) == Addresses(list) + {AsAddress(a)}
  {
    hide AsAddress;
    forall x ensures x in Addresses(list + [a]) <==> x in Addresses(list) + {AsAddress(a)} {
      if y :| y in list && AsAddress(y) == x { assert y in list + [a]; }
      assert a in list + [a];
    }
  }

  function NewConfig(b: Breaker, r: FeedReply): Config {
    Config(r.enabled, r.tradingMode != 0, r.tradingMode, r.cooldownTime, r.threshold, r.lastStatusUpdatedAt,
           ComputeCooldownEndsAt(r.lastStatusUpdatedAt, EffectiveCooldown(b.defaultCooldown, r.cooldownTime)))
  }

  /** The graph after reading one breaker, its row and its config of a feed; rows already there
      are kept, and a failed read leaves out what it would have written. */
  function HydratedWith(g: Graph, chain: int, feed: string, address: string, rpc: Rpc): Graph {
    var b, k := BreakerKey(chain, address), ConfigKey(chain, address, feed);
    var breakers := BreakersWith(g.breakers, b, rpc);
    if b !in breakers || k in g.configs || (address, feed) !in rpc.feedStates then g.(breakers := breakers)
    else g.(breakers := breakers, configs := g.configs[k := NewConfig(breakers[b], rpc.feedStates[(address, feed)])])
  }

  function BreakersWith(breakers: map<BreakerKey, Breaker>, b: BreakerKey, rpc: Rpc): map<BreakerKey, Breaker> {
    if b in breakers || b.address !in rpc.breakers then breakers else breakers[b := rpc.breakers[b.address]]
  }

  function HydratedWithAll(g: Graph, chain: int, feed: string, list: seq<string>, rpc: Rpc): Graph {
    if list == [] then g
    else HydratedWith(HydratedWithAll(g, chain, feed, list[..|list| - 1], rpc), chain, feed, AsAddress(list[|list| - 1]), rpc)
  }

  /** Row and config are there or can be read. */
  predicate Answered(g: Graph, chain: int, r: Read, rpc: Rpc) {
    && (BreakerKey(chain, r.breaker) in g.breakers || r.breaker in rpc.breakers)
    && (ConfigKey(chain, r.breaker, r.feed) in g.configs || (r.breaker, r.feed) in rpc.feedStates)
  }

  predicate AllAnswered(g: Graph, chain: int, feed: string, list: seq<string>, rpc: Rpc) {
    forall a :: a in list ==> Answered(g, chain, Read(AsAddress(a), feed), rpc)
  }

  // ---------------------------------------------------------------- reads as a set

  /** One breaker asked about one feed. */
  datatype Read = Read(breaker: string, feed: string)

  /** What any sequence of reads comes to: rows are only added, each as the chain answers it, and
      every answered read has its config. */
  ghost predicate ReadsDone(g: Graph, after: Graph, chain: int, asked: set<Read>, rpc: Rpc) {
    && after.edges == g.edges
    && (forall b :: b in g.breakers ==> b in after.breakers && after.breakers[b] == g.breakers[b])
    && (forall b :: b in after.breakers && b !in g.breakers ==> b.chain == chain && b.address in rpc.breakers && after.breakers[b] == rpc.breakers[b.address])
    && (forall k :: k in g.configs ==> k in after.configs && after.configs[k] == g.configs[k])
    && (forall k :: k in after.configs && k !in g.configs ==> NewBy(after, k, chain, asked, rpc))
    && (forall r :: r in asked && Answered(g, chain, r, rpc) ==> ConfigKey(chain, r.breaker, r.feed) in after.configs)
  }

  ghost predicate NewBy(after: Graph, k: ConfigKey, chain: int, asked: set<Read>, rpc: Rpc)
    requires k in after.configs
  {
    && k.chain == chain && Read(k.breaker, k.feed) in asked && (k.breaker, k.feed) in rpc.feedStates && BreakerOf(k) in after.breakers
    && after.configs[k] == NewConfig(after.breakers[BreakerOf(k)], rpc.feedStates[(k.breaker, k.feed)])
  }

  lemma NothingRead(g: Graph, chain: int, rpc: Rpc)
    ensures ReadsDone(g, g, chain, {}, rpc)
  {
  }

  lemma ReadOne(g: Graph, chain: int, r: Read, rpc: Rpc)
    ensures ReadsDone(g, HydratedWith(g, chain, r.feed, r.breaker, rpc), chain, {r}, rpc)
  {
    hide NewConfig;
  }

  lemma ReadMore(a: Graph, b: Graph, c: Graph, chain: int, asked: set<Read>, more: set<Read>, rpc: Rpc)
    requires ReadsDone(a, b, chain, asked, rpc) && ReadsDone(b, c, chain, more, rpc)
    ensures ReadsDone(a, c, chain, asked + more, rpc)
  {
    hide NewConfig, NewBy, Answered;
    forall k | k in c.configs && k !in a.configs ensures NewBy(c, k, chain, asked + more, rpc) { NewByEither(a, b, c, chain, asked, more, k, rpc); }
    forall r | r in asked + more && Answered(a, chain, r, rpc) ensures ConfigKey(chain, r.breaker, r.feed) in c.configs { StillAnswered(a, b, chain, asked, r, rpc); }
  }

  lemma NewByEither(a: Graph, b: Graph, c: Graph, chain: int, asked: set<Read>, more: set<Read>, k: ConfigKey, rpc: Rpc)
    requires ReadsDone(a, b, chain, asked, rpc) && ReadsDone(b, c, chain, more, rpc) && k in c.configs && k !in a.configs
    ensures NewBy(c, k, chain, asked + more, rpc)
  {
    hide NewConfig, Answered;
    if k in b.configs { assert NewBy(b, k, chain, asked, rpc); } else { assert NewBy(c, k, chain, more, rpc); }
  }

  lemma StillAnswered(a: Graph, b: Graph, chain: int, asked: set<Read>, r: Read, rpc: Rpc)
    requires ReadsDone(a, b, chain, asked, rpc) && Answered(a, chain, r, rpc)
    ensures Answered(b, chain, r, rpc)
  {
    hide NewBy;
  }

  /** Reading again what was read changes nothing that the reads say. */
  lemma ReadsKeepRows(g: Graph, after: Graph, chain: int, asked: set<Read>, rpc: Rpc)
    requires ReadsDone(g, after, chain, asked, rpc) && BreakersKnown(g)
    ensures BreakersKnown(after) && (CooldownsRight(g) ==> CooldownsRight(after))
    ensures forall r :: Answered(g, chain, r, rpc) ==> Answered(after, chain, r, rpc)
  {
    forall k | k in after.configs ensures BreakerOf(k) in after.breakers {
      if k !in g.configs { assert NewBy(after, k, chain, asked, rpc); } else { assert BreakerOf(k) in g.breakers; }
    }
    if CooldownsRight(g) {
      forall k | k in after.configs ensures CooldownRight(after.breakers[BreakerOf(k)], after.configs[k]) {
        if k !in g.configs { assert NewBy(after, k, chain, asked, rpc); } else { assert BreakerOf(k) in g.breakers; }
      }
    }
  }

  function ReadsOf(list: seq<string>, feeds: set<string>): set<Read> {
    set a, f | a in list && f in feeds :: Read(AsAddress(a), f)
  }

  lemma {:induction false} ReadList(g: Graph, chain: int, feed: string, list: seq<string>, rpc: Rpc)
    ensures ReadsDone(g, HydratedWithAll(g, chain, feed, list, rpc), chain, ReadsOf(list, {feed}), rpc)
  {
    hide AsAddress, HydratedWith, ReadsDone;
    if list == [] {
      assert ReadsOf(list, {feed}) == {};
      NothingRead(g, chain, rpc);
    } else {
      var init, a := list[..|list| - 1], list[|list| - 1];
      var r := Read(AsAddress(a), feed);
      assert list == init + [a];
      ReadList(g, chain, feed, init, rpc);
      ReadOne(HydratedWithAll(g, chain, feed, init, rpc), chain, r, rpc);
      ReadMore(g, HydratedWithAll(g, chain, feed, init, rpc), HydratedWithAll(g, chain, feed, list, rpc), chain, ReadsOf(init, {feed}), {r}, rpc);
      assert ReadsOf(list, {feed}) == ReadsOf(init, {feed}) + {r};
    }
  }

  /** Reading the whole list gives every config exactly if all reads were answered. */
  lemma ListConfigured(g: Graph, chain: int, feed: string, list: seq<string>, rpc: Rpc)
    requires BreakersKnown(g)
    ensures AllAnswered(g, chain, feed, list, rpc) <==>
      forall a :: a in list ==> ConfigKey(chain, AsAddress(a), feed) in HydratedWithAll(g, chain, feed, list, rpc).configs
  {
    hide AsAddress, HydratedWithAll, NewConfig;
    var after := HydratedWithAll(g, chain, feed, list, rpc);
    ReadList(g, chain, feed, list, rpc);
    forall a | a in list ensures Answered(g, chain, Read(AsAddress(a), feed), rpc) <==> ConfigKey(chain, AsAddress(a), feed) in after.configs {
      var r, k := Read(AsAddress(a), feed), ConfigKey(chain, AsAddress(a), feed);
      assert r in ReadsOf(list, {feed});
      if k in g.configs { assert BreakerOf(k) in g.breakers; } else if k in after.configs { assert NewBy(after, k, chain, ReadsOf(list, {feed}), rpc); }
    }
  }

  // ---------------------------------------------------------------- what reads do to halts

  /** The read would find a halt: the config is absent, and is answered as enabled and tripped, of a
      breaker that is not a trading-hours one. */
  predicate BringsHalt(g: Graph, chain: int, r: Read, rpc: Rpc) {
    var b := BreakerKey(chain, r.breaker);
    && ConfigKey(chain, r.breaker, r.feed) !in g.configs
    && (r.breaker, r.feed) in rpc.feedStates && rpc.feedStates[(r.breaker, r.feed)].enabled && rpc.feedStates[(r.breaker, r.feed)].tradingMode != 0
    && (if b in g.breakers then g.breakers[b].kind != MarketHours
        else r.breaker in rpc.breakers && rpc.breakers[r.breaker].kind != MarketHours)
  }

  /** One of the reads would find a halt of the feed or of a direct dependency of it. */
  ghost predicate Finds(g: Graph, chain: int, asked: set<Read>, rpc: Rpc, c: int, feed: string) {
    c == chain && exists r :: r in asked && BringsHalt(g, chain, r, rpc) && (r.feed == feed || Edge(chain, feed, r.feed) in g.edges)
  }

  lemma OwnHaltAfterReads(g: Graph, after: Graph, chain: int, asked: set<Read>, rpc: Rpc, c: int, f: string)
    requires ReadsDone(g, after, chain, asked, rpc) && BreakersKnown(g)
    ensures OwnHalted(after, c, f) <==> OwnHalted(g, c, f) || (c == chain && exists r :: r in asked && r.feed == f && BringsHalt(g, chain, r, rpc))
  {
    if k :| k in after.configs && k.chain == c && k.feed == f && Halts(after, k) {
      if k in g.configs {
        assert BreakerOf(k) in g.breakers && Halts(g, k);
      } else {
        assert NewBy(after, k, chain, asked, rpc) && BringsHalt(g, chain, Read(k.breaker, k.feed), rpc);
      }
    }
    if k :| k in g.configs && k.chain == c && k.feed == f && Halts(g, k) { assert Halts(after, k); }
    if r :| c == chain && r in asked && r.feed == f && BringsHalt(g, chain, r, rpc) {
      var k := ConfigKey(chain, r.breaker, r.feed);
      assert Answered(g, chain, r, rpc) && NewBy(after, k, chain, asked, rpc);
      assert Halts(after, k);
    }
  }

  lemma HaltAfterReads(g: Graph, after: Graph, chain: int, asked: set<Read>, rpc: Rpc, c: int, f: string)
    requires ReadsDone(g, after, chain, asked, rpc) && BreakersKnown(g)
    ensures Halted(after, c, f) <==> Halted(g, c, f) || Finds(g, chain, asked, rpc, c, f)
  {
    hide ReadsDone, BreakersKnown, OwnHalted, BringsHalt;
    assert after.edges == g.edges by { EdgesKept(g, after, chain, asked, rpc); }
    OwnHaltAfterReads(g, after, chain, asked, rpc, c, f);
    forall e | e in g.edges && e.chain == c && e.feed == f
      ensures OwnHalted(after, c, e.dependsOn) <==>
        OwnHalted(g, c, e.dependsOn) || (c == chain && exists r :: r in asked && r.feed == e.dependsOn && BringsHalt(g, chain, r, rpc))
    {
      OwnHaltAfterReads(g, after, chain, asked, rpc, c, e.dependsOn);
    }
    if Halted(after, c, f) && !OwnHalted(after, c, f) {
      var e :| e in after.edges && e.chain == c && e.feed == f && OwnHalted(after, c, e.dependsOn);
      assert e == Edge(c, f, e.dependsOn);
    }
    if r :| c == chain && r in asked && BringsHalt(g, chain, r, rpc) && (r.feed == f || Edge(chain, f, r.feed) in g.edges) {
      if r.feed != f { assert OwnHalted(after, c, Edge(chain, f, r.feed).dependsOn); }
    }
  }

  lemma EdgesKept(g: Graph, after: Graph, chain: int, asked: set<Read>, rpc: Rpc)
    requires ReadsDone(g, after, chain, asked, rpc)
    ensures after.edges == g.edges
  {
  }

  /** A pool that reads a halt the reads would find, and that is not halted already. */
  ghost predicate Stale(g: Graph, chain: int, asked: set<Read>, rpc: Rpc, p: Pool) {
    !p.isVirtual && p.feed != "" && !p.breakerTripped && Finds(g, chain, asked, rpc, p.chain, p.feed)
  }

  lemma FlagAfterReads(g: Graph, after: Graph, chain: int, asked: set<Read>, rpc: Rpc, p: Pool)
    requires ReadsDone(g, after, chain, asked, rpc) && BreakersKnown(g) && FlagRight(g, p)
    ensures FlagRight(after, p) <==> !Stale(g, chain, asked, rpc, p)
  {
    hide ReadsDone, BreakersKnown, Halted, Finds;
    HaltAfterReads(g, after, chain, asked, rpc, p.chain, p.feed);
  }

  /** Reads without a sync keep all flags right if and only if no pool is left stale by what they
      find: that is known before the reads. */
  lemma QuietReadsExactly(g: Graph, after: Graph, pools: map<string, Pool>, chain: int, asked: set<Read>, rpc: Rpc)
    requires FlagsAgree(g, pools) && BreakersKnown(g) && ReadsDone(g, after, chain, asked, rpc)
    ensures FlagsAgree(after, pools) <==> forall id :: id in pools ==> !Stale(g, chain, asked, rpc, pools[id])
  {
    hide ReadsDone, BreakersKnown, Stale, FlagRight;
    forall id | id in pools ensures FlagRight(after, pools[id]) <==> !Stale(g, chain, asked, rpc, pools[id]) {
      FlagAfterReads(g, after, chain, asked, rpc, pools[id]);
    }
  }

  /** Loading the dependencies of `feed` and syncing it leaves all flags right if and only if no pool
      outside the feed and its dependents, not halted already, reads a feed for which one of the
      reads finds a halt. All of that is known before the load. */
  lemma LoadingRestoresExactly(g: Graph, linked: Graph, after: Graph, pools: map<string, Pool>,
      chain: int, feed: string, wanted: set<string>, asked: set<Read>, rpc: Rpc)
    requires FlagsAgree(g, pools) && BreakersKnown(g)
    requires linked == g.(edges := Reconciled(g.edges, chain, feed, wanted)) && ReadsDone(linked, after, chain, asked, rpc)
    ensures FlagsAgree(after, Synced(after, pools, chain, feed)) <==>
      forall id :: id in pools ==> Recomputed(g, chain, feed, pools[id]) || !Stale(g, chain, asked, rpc, pools[id])
  {
    hide ReadsDone, BreakersKnown, Stale, FlagRight, Reconciled, Recomputed;
    var synced := Synced(after, pools, chain, feed);
    forall id | id in pools
      ensures FlagRight(after, synced[id]) <==> Recomputed(g, chain, feed, pools[id]) || !Stale(g, chain, asked, rpc, pools[id])
    {
      FlagOf(g, pools, id);
      LoadedPool(g, linked, after, pools[id], chain, feed, wanted, asked, rpc);
    }
    FlagsAgreeMeans(after, synced);
  }

  /** In particular when every config asked for was there already. */
  lemma LoadingRestoresWhenConfigured(g: Graph, linked: Graph, after: Graph, pools: map<string, Pool>,
      chain: int, feed: string, wanted: set<string>, asked: set<Read>, rpc: Rpc)
    requires FlagsAgree(g, pools) && BreakersKnown(g)
    requires linked == g.(edges := Reconciled(g.edges, chain, feed, wanted)) && ReadsDone(linked, after, chain, asked, rpc)
    requires forall r :: r in asked ==> ConfigKey(chain, r.breaker, r.feed) in g.configs
    ensures FlagsAgree(after, Synced(after, pools, chain, feed))
  {
    hide FlagsAgree, BreakersKnown, Reconciled, ReadsDone, Synced, Recomputed;
    LoadingRestoresExactly(g, linked, after, pools, chain, feed, wanted, asked, rpc);
  }

  lemma LoadedPool(g: Graph, linked: Graph, after: Graph, p: Pool, chain: int, feed: string, wanted: set<string>, asked: set<Read>, rpc: Rpc)
    requires FlagRight(g, p) && BreakersKnown(g)
    requires linked == g.(edges := Reconciled(g.edges, chain, feed, wanted)) && ReadsDone(linked, after, chain, asked, rpc)
    ensures FlagRight(after, SyncedPool(after, p, chain, feed)) <==> Recomputed(g, chain, feed, p) || !Stale(g, chain, asked, rpc, p)
  {
    hide ReadsDone, BreakersKnown, Halted, OwnHalted;
    EdgesKept(linked, after, chain, asked, rpc);
    ReconciledEdges(g.edges, chain, feed, wanted);
    assert Recomputed(after, chain, feed, p) <==> Recomputed(g, chain, feed, p);
    if !Recomputed(g, chain, feed, p) {
      assert BreakersKnown(linked) by { SameConfigs(g, linked); }
      HaltElsewhere(g, linked, chain, feed, p) by { assert DiffersOnlyAt(g, linked, chain, feed); }
      assert FlagRight(linked, p);
      FlagAfterReads(linked, after, chain, asked, rpc, p);
      assert Stale(linked, chain, asked, rpc, p) <==> Stale(g, chain, asked, rpc, p) by { SameFinds(g, linked, chain, feed, asked, rpc, p); }
    }
  }

  lemma SameConfigs(a: Graph, b: Graph)
    requires a.configs == b.configs && a.breakers == b.breakers && BreakersKnown(a)
    ensures BreakersKnown(b)
  {
  }

  lemma SameFinds(g: Graph, linked: Graph, chain: int, feed: string, asked: set<Read>, rpc: Rpc, p: Pool)
    requires linked.breakers == g.breakers && linked.configs == g.configs
    requires !(p.chain == chain && p.feed == feed) && forall e: Edge :: !(e.chain == chain && e.feed == feed) ==> (e in linked.edges <==> e in g.edges)
    ensures Finds(linked, chain, asked, rpc, p.chain, p.feed) == Finds(g, chain, asked, rpc, p.chain, p.feed)
  {
    forall r ensures BringsHalt(linked, chain, r, rpc) == BringsHalt(g, chain, r, rpc) {}
  }

  // ---------------------------------------------------------------- the caches

  datatype CacheKey = FeedConfigs(chain: int, feed: string) | Dependencies(chain: int, feed: string)

  const BOOTSTRAP_ATTEMPTED_MAX := 1024
  const BOOTSTRAP_BACKOFF_SECONDS := 300

  /** What is done, and until when failures are not tried again, both in order of first insertion. */
  datatype Caches = Caches(attempted: seq<CacheKey>, backoffUntil: map<CacheKey, int>, backoffOrder: seq<CacheKey>)

  const NO_CACHES := Caches([], map[], [])

  predicate MayTry(c: Caches, key: CacheKey, now: int) {
    key !in c.attempted && !(key in c.backoffUntil && now < c.backoffUntil[key])
  }

  function Dropped(c: Caches, key: CacheKey): Caches {
    c.(backoffUntil := c.backoffUntil - {key}, backoffOrder := Without(c.backoffOrder, key))
  }

  /** First in, first out at the cap; the evicted key also loses its backoff. */
  function Marked(c: Caches, key: CacheKey): Caches {
    if key in c.attempted then c
    else if |c.attempted| < BOOTSTRAP_ATTEMPTED_MAX then c.(attempted := c.attempted + [key])
    else Dropped(c, c.attempted[0]).(attempted := c.attempted[1..] + [key])
  }

  function Backed(c: Caches, key: CacheKey, until: int): Caches {
    if key in c.backoffUntil then c.(backoffUntil := c.backoffUntil[key := until])
    else
      var room := if |c.backoffOrder| < BOOTSTRAP_ATTEMPTED_MAX then c else Dropped(c, c.backoffOrder[0]);
      room.(backoffUntil := room.backoffUntil[key := until], backoffOrder := room.backoffOrder + [key])
  }

  function Forgotten(c: Caches, key: CacheKey): Caches { c.(attempted := Without(c.attempted, key)) }

  /** At most 1024 entries each, without repetition, and the backoff times are those listed. */
  ghost predicate Bounded(c: Caches) {
    && Distinct(c.attempted) && |c.attempted| <= 1024
    && Distinct(c.backoffOrder) && |c.backoffOrder| <= 1024 && Elements(c.backoffOrder) == c.backoffUntil.Keys
  }

  lemma DroppedIsBounded(c: Caches, key: CacheKey)
    requires Bounded(c)
    ensures Bounded(Dropped(c, key)) && (key in c.backoffUntil ==> |Dropped(c, key).backoffOrder| == |c.backoffOrder| - 1)
  {
    WithoutMembers(c.backoffOrder, key);
    WithoutLength(c.backoffOrder, key);
  }

  lemma {:induction false} WithoutLength(keys: seq<CacheKey>, key: CacheKey)
    requires Distinct(keys)
    ensures |Without(keys, key)| == |keys| - (if key in keys then 1 else 0)
  {
    if keys != [] {
      var init := keys[..|keys| - 1];
      assert keys == init + [keys[|keys| - 1]];
      WithoutLength(init, key);
    }
  }

  lemma MarkedIsBounded(c: Caches, key: CacheKey)
    requires Bounded(c)
    ensures Bounded(Marked(c, key)) && key in Marked(c, key).attempted
  {
    hide Dropped;
    if key !in c.attempted {
      if |c.attempted| < BOOTSTRAP_ATTEMPTED_MAX {
        DistinctAppend(c.attempted, key);
      } else {
        DroppedIsBounded(c, c.attempted[0]);
        DistinctTail(c.attempted);
        DistinctAppend(c.attempted[1..], key);
      }
    }
  }

  lemma BackedIsBounded(c: Caches, key: CacheKey, until: int)
    requires Bounded(c)
    ensures Bounded(Backed(c, key, until)) && key in Backed(c, key, until).backoffUntil && Backed(c, key, until).backoffUntil[key] == until
  {
    if key !in c.backoffUntil {
      var room := if |c.backoffOrder| < BOOTSTRAP_ATTEMPTED_MAX then c else Dropped(c, c.backoffOrder[0]);
      if |c.backoffOrder| >= BOOTSTRAP_ATTEMPTED_MAX {
        InElements(c.backoffOrder[0], c.backoffOrder);
        DroppedIsBounded(c, c.backoffOrder[0]);
      }
      assert Bounded(room) && |room.backoffOrder| < BOOTSTRAP_ATTEMPTED_MAX;
      InElements(key, room.backoffOrder);
      DistinctAppend(room.backoffOrder, key);
    }
  }

  lemma ForgottenIsBounded(c: Caches, key: CacheKey)
    requires Bounded(c)
    ensures Bounded(Forgotten(c, key)) && key !in Forgotten(c, key).attempted
  {
    WithoutMembers(c.attempted, key);
    WithoutLength(c.attempted, key);
    InElements(key, Without(c.attempted, key));
  }

  // ---------------------------------------------------------------- bootstrap and dependency load

  datatype Boot = Boot(graph: Graph, caches: Caches, done: bool)

  /** One feed: nothing if it is done or backing off; else the registered breakers are read, and the
      feed is done if all of them were answered, else it backs off. */
  function Bootstrapped(g: Graph, c: Caches, chain: int, feed: string, now: int, rpc: Rpc): Boot {
    var key := FeedConfigs(chain, feed);
    if key in c.attempted then Boot(g, c, true)
    else if !MayTry(c, key, now) then Boot(g, c, false)
    else if rpc.breakerList.None? then Boot(g, Backed(c, key, now + BOOTSTRAP_BACKOFF_SECONDS), false)
    else
      var after := HydratedWithAll(g, chain, feed, rpc.breakerList.value, rpc);
      if AllAnswered(g, chain, feed, rpc.breakerList.value, rpc) then Boot(after, Dropped(Marked(c, key), key), true)
      else Boot(after, Backed(c, key, now + BOOTSTRAP_BACKOFF_SECONDS), false)
  }

  /** The feeds one after another. */
  function BootstrappedAll(g: Graph, c: Caches, chain: int, feeds: seq<string>, now: int, rpc: Rpc): Boot {
    if feeds == [] then Boot(g, c, true)
    else
      var b := BootstrappedAll(g, c, chain, feeds[..|feeds| - 1], now, rpc);
      var d := Bootstrapped(b.graph, b.caches, chain, AsAddress(feeds[|feeds| - 1]), now, rpc);
      Boot(d.graph, d.caches, b.done && d.done)
  }

  /** Those of the feeds that are neither done nor backing off when it is their turn. */
  function Tried(g: Graph, c: Caches, chain: int, feeds: seq<string>, now: int, rpc: Rpc): set<string> {
    if feeds == [] then {}
    else
      var init, f := feeds[..|feeds| - 1], AsAddress(feeds[|feeds| - 1]);
      Tried(g, c, chain, init, now, rpc) +
      (if MayTry(BootstrappedAll(g, c, chain, init, now, rpc).caches, FeedConfigs(chain, f), now) then {f} else {})
  }

  function ReadsTried(g: Graph, c: Caches, chain: int, feeds: seq<string>, now: int, rpc: Rpc): set<Read> {
    if rpc.breakerList.None? then {} else ReadsOf(rpc.breakerList.value, Tried(g, c, chain, feeds, now, rpc))
  }

  lemma BootstrapReads(g: Graph, c: Caches, chain: int, feed: string, now: int, rpc: Rpc)
    ensures
      var tried := MayTry(c, FeedConfigs(chain, feed), now) && rpc.breakerList.Some?;
      ReadsDone(g, Bootstrapped(g, c, chain, feed, now, rpc).graph, chain, if tried then ReadsOf(rpc.breakerList.value, {feed}) else {}, rpc)
  {
    hide ReadsDone, HydratedWithAll, AllAnswered, ReadsOf;
    NothingRead(g, chain, rpc);
    if rpc.breakerList.Some? { ReadList(g, chain, feed, rpc.breakerList.value, rpc); }
  }

  /** A feed that is tried is done exactly when every registered breaker then has its config, and it
      is listed as done exactly then; otherwise it is tried again no earlier than the backoff says. */
  lemma BootstrapIsDoneExactly(g: Graph, c: Caches, chain: int, feed: string, now: int, rpc: Rpc)
    requires BreakersKnown(g) && Bounded(c)
    ensures
      var key, b := FeedConfigs(chain, feed), Bootstrapped(g, c, chain, feed, now, rpc);
      && Bounded(b.caches) && (b.done <==> key in b.caches.attempted)
      && (MayTry(c, key, now) ==>
            && (b.done <==> rpc.breakerList.Some? && forall a :: a in rpc.breakerList.value ==> ConfigKey(chain, AsAddress(a), feed) in b.graph.configs)
            && (!b.done ==> forall t :: MayTry(b.caches, key, t) <==> t >= now + 300))
  {
    hide HydratedWithAll, AllAnswered, Marked, Backed, Dropped, Bounded, AsAddress;
    var key := FeedConfigs(chain, feed);
    MarkedIsBounded(c, key);
    DroppedIsBounded(Marked(c, key), key);
    BackedIsBounded(c, key, now + BOOTSTRAP_BACKOFF_SECONDS);
    AttemptedUnchanged(c, Marked(c, key), key, now + BOOTSTRAP_BACKOFF_SECONDS);
    if rpc.breakerList.Some? { ListConfigured(g, chain, feed, rpc.breakerList.value, rpc); }
  }

  lemma AttemptedUnchanged(c: Caches, marked: Caches, key: CacheKey, until: int)
    ensures Dropped(marked, key).attempted == marked.attempted && Backed(c, key, until).attempted == c.attempted
  {
  }

  /** Bootstraps of feeds never list a dependency load as done. */
  lemma {:induction false} NoLoadMarked(g: Graph, c: Caches, chain: int, feeds: seq<string>, now: int, rpc: Rpc, key: CacheKey)
    requires key.Dependencies?
    ensures key in BootstrappedAll(g, c, chain, feeds, now, rpc).caches.attempted ==> key in c.attempted
  {
    hide HydratedWithAll, AllAnswered, AsAddress;
    if feeds != [] { NoLoadMarked(g, c, chain, feeds[..|feeds| - 1], now, rpc, key); }
  }

  /** A load is listed as done exactly when every dependency was bootstrapped in its turn. */
  lemma LoadIsCachedExactly(g: Graph, c: Caches, chain: int, feed: string, now: int, force: bool, rpc: Rpc)
    requires Bounded(c) && Loads(c, chain, feed, now, force, rpc)
    ensures
      Dependencies(chain, feed) in LoadedFrom(g, c, chain, feed, now, force, rpc).caches.attempted <==>
      BootstrappedAll(Linked(g, chain, feed, rpc), c, chain, rpc.dependencies[feed], now, rpc).done
  {
    hide BootstrappedAll, Marked, Dropped, Backed, Bounded, Linked;
    var key, b := Dependencies(chain, feed), BootstrappedAll(Linked(g, chain, feed, rpc), c, chain, rpc.dependencies[feed], now, rpc);
    NoLoadMarked(Linked(g, chain, feed, rpc), c, chain, rpc.dependencies[feed], now, rpc, key);
    AllStayBounded(Linked(g, chain, feed, rpc), c, chain, rpc.dependencies[feed], now, rpc);
    MarkedIsBounded(b.caches, key);
    BackedIsBounded(b.caches, key, now + BOOTSTRAP_BACKOFF_SECONDS);
    AttemptedUnchanged(b.caches, Marked(b.caches, key), key, now + BOOTSTRAP_BACKOFF_SECONDS);
    ForgottenIsBounded(Backed(b.caches, key, now + BOOTSTRAP_BACKOFF_SECONDS), key);
  }

  lemma {:induction false} AllStayBounded(g: Graph, c: Caches, chain: int, feeds: seq<string>, now: int, rpc: Rpc)
    requires Bounded(c)
    ensures Bounded(BootstrappedAll(g, c, chain, feeds, now, rpc).caches)
  {
    hide Bounded, HydratedWithAll, AllAnswered, Marked, Dropped, Backed, AsAddress;
    if feeds != [] {
      AllStayBounded(g, c, chain, feeds[..|feeds| - 1], now, rpc);
      var d := BootstrappedAll(g, c, chain, feeds[..|feeds| - 1], now, rpc).caches;
      var key := FeedConfigs(chain, AsAddress(feeds[|feeds| - 1]));
      MarkedIsBounded(d, key);
      DroppedIsBounded(Marked(d, key), key);
      BackedIsBounded(d, key, now + BOOTSTRAP_BACKOFF_SECONDS);
    }
  }

  lemma {:induction false} BootstrapAllReads(g: Graph, c: Caches, chain: int, feeds: seq<string>, now: int, rpc: Rpc)
    ensures ReadsDone(g, BootstrappedAll(g, c, chain, feeds, now, rpc).graph, chain, ReadsTried(g, c, chain, feeds, now, rpc), rpc)
  {
    hide ReadsDone, Bootstrapped, AsAddress;
    if feeds == [] {
      NothingRead(g, chain, rpc);
      assert ReadsTried(g, c, chain, feeds, now, rpc) == {};
    } else {
      var init, f := feeds[..|feeds| - 1], AsAddress(feeds[|feeds| - 1]);
      BootstrapAllReads(g, c, chain, init, now, rpc);
      var b := BootstrappedAll(g, c, chain, init, now, rpc);
      BootstrapReads(b.graph, b.caches, chain, f, now, rpc);
      var tried := MayTry(b.caches, FeedConfigs(chain, f), now) && rpc.breakerList.Some?;
      var more := if tried then ReadsOf(rpc.breakerList.value, {f}) else {};
      ReadMore(g, b.graph, BootstrappedAll(g, c, chain, feeds, now, rpc).graph, chain, ReadsTried(g, c, chain, init, now, rpc), more, rpc);
      assert ReadsTried(g, c, chain, feeds, now, rpc) == ReadsTried(g, c, chain, init, now, rpc) + more;
    }
  }

  datatype Load = Load(graph: Graph, caches: Caches, loaded: bool)

  predicate Loads(c: Caches, chain: int, feed: string, now: int, force: bool, rpc: Rpc) {
    (force || MayTry(c, Dependencies(chain, feed), now)) && feed in rpc.dependencies
  }

  function Linked(g: Graph, chain: int, feed: string, rpc: Rpc): Graph {
    if feed in rpc.dependencies then g.(edges := Reconciled(g.edges, chain, feed, Addresses(rpc.dependencies[feed]))) else g
  }

  /** The dependency load: the feed's edges replaced by the chain's, and every dependency
      bootstrapped. It is done if they all are; a failure backs off, and a forced one is forgotten. */
  function LoadedFrom(g: Graph, c: Caches, chain: int, feed: string, now: int, force: bool, rpc: Rpc): Load {
    var key := Dependencies(chain, feed);
    if !force && !MayTry(c, key, now) then Load(g, c, false)
    else if feed !in rpc.dependencies then Load(g, Failed(c, key, now, force), false)
    else
      var b := BootstrappedAll(Linked(g, chain, feed, rpc), c, chain, rpc.dependencies[feed], now, rpc);
      Load(b.graph, if b.done then Dropped(Marked(b.caches, key), key) else Failed(b.caches, key, now, force), true)
  }

  function Failed(c: Caches, key: CacheKey, now: int, force: bool): Caches {
    var backed := Backed(c, key, now + BOOTSTRAP_BACKOFF_SECONDS);
    if force then Forgotten(backed, key) else backed
  }

  /** The reads of a load that goes ahead. */
  ghost function LoadReads(g: Graph, c: Caches, chain: int, feed: string, now: int, rpc: Rpc): set<Read>
    requires feed in rpc.dependencies
  {
    ReadsTried(Linked(g, chain, feed, rpc), c, chain, rpc.dependencies[feed], now, rpc)
  }

  /** The load will leave some pool stale: one outside the feed and its dependents. */
  ghost predicate LoadBreaks(g: Graph, c: Caches, pools: map<string, Pool>, chain: int, feed: string, now: int, force: bool, rpc: Rpc) {
    Loads(c, chain, feed, now, force, rpc) &&
    exists id :: id in pools && !Recomputed(g, chain, feed, pools[id]) && Stale(g, chain, LoadReads(g, c, chain, feed, now, rpc), rpc, pools[id])
  }

  /** Loading and syncing keeps all flags right exactly unless it breaks them in this way. */
  lemma LoadKeepsFlagsExactly(g: Graph, c: Caches, pools: map<string, Pool>, chain: int, feed: string, now: int, force: bool, rpc: Rpc)
    requires FlagsAgree(g, pools) && BreakersKnown(g)
    ensures
      var l := LoadedFrom(g, c, chain, feed, now, force, rpc);
      && BreakersKnown(l.graph) && (CooldownsRight(g) ==> CooldownsRight(l.graph))
      && (l.loaded <==> Loads(c, chain, feed, now, force, rpc)) && (!l.loaded ==> l.graph == g)
      && (FlagsAgree(l.graph, Synced(l.graph, pools, chain, feed)) <==> !LoadBreaks(g, c, pools, chain, feed, now, force, rpc))
  {
    hide FlagsAgree, BreakersKnown, CooldownsRight, BootstrappedAll, ReadsDone, Stale, Recomputed, Synced, Reconciled, ReadsTried, Failed, MayTry, Dropped, Marked;
    var l := LoadedFrom(g, c, chain, feed, now, force, rpc);
    if l.loaded {
      var linked, asked := Linked(g, chain, feed, rpc), LoadReads(g, c, chain, feed, now, rpc);
      BootstrapAllReads(linked, c, chain, rpc.dependencies[feed], now, rpc);
      SameConfigs(g, linked);
      ReadsKeepRows(linked, l.graph, chain, asked, rpc);
      SameCooldowns(g, linked);
      LoadingRestoresExactly(g, linked, l.graph, pools, chain, feed, Addresses(rpc.dependencies[feed]), asked, rpc);
    } else {
      SyncRestores(g, g, pools, chain, feed) by { assert DiffersOnlyAt(g, g, chain, feed); }
    }
  }

  lemma SameCooldowns(a: Graph, b: Graph)
    requires a.configs == b.configs && a.breakers == b.breakers
    ensures CooldownsRight(a) == CooldownsRight(b)
  {
  }
}
