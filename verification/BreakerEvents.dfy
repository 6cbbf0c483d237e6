/** What each event does to the breaker rows, the pools' flags and the caches. */
module BreakerEvents {
  import opened Ordering
  import opened Outcomes
  import opened Breakers
  import opened BreakerHydration

  datatype State = State(graph: Graph, pools: map<string, Pool>, caches: Caches)

  const EMPTY := State(Graph(map[], map[], {}), map[], NO_CACHES)

  datatype DefaultChange = DefaultCooldown(cooldown: int) | DefaultThreshold(threshold: int)

  /** A smoothing factor, an average reset or a reference value changes nothing modelled here. */
  datatype ConfigChange = Cooldown(cooldown: int) | Threshold(threshold: int) | OtherField

  datatype Event =
    | BreakerAdded(chain: int, breaker: string, rpc: Rpc)
    | BreakerRemoved(chain: int, breaker: string)
    | BreakerStatusUpdated(chain: int, breaker: string, feed: string, enabled: bool, rpc: Rpc)
    | BreakerTripped(chain: int, breaker: string, feed: string, timestamp: int, rpc: Rpc)
    | ResetSuccessful(chain: int, breaker: string, feed: string, timestamp: int, rpc: Rpc)
    | TradingModeUpdated(chain: int, feed: string, mode: int, timestamp: int, rpc: Rpc)
    | RateFeedRemoved(chain: int, feed: string)
    | RateFeedDependenciesSet(chain: int, feed: string, timestamp: int, rpc: Rpc)
    | DefaultUpdated(chain: int, breaker: string, default: DefaultChange, rpc: Rpc)
    | FeedConfigUpdated(chain: int, breaker: string, feed: string, change: ConfigChange, rpc: Rpc)
    | OracleUpdated(chain: int, feed: string, timestamp: int, rpc: Rpc)
    | PoolCreated(id: string, chain: int)
    | PoolFoundVirtual(id: string)
    | FeedAssigned(id: string, feed: string)

  // ---------------------------------------------------------------- configs

  function KeyOf(chain: int, breaker: string, feed: string): ConfigKey {
    ConfigKey(chain, AsAddress(breaker), AsAddress(feed))
  }

  /** Both rows ensured: kept, read, or missing. */
  function Ensured(g: Graph, k: ConfigKey, rpc: Rpc): Graph { HydratedWith(g, k.chain, k.feed, k.breaker, rpc) }

  predicate Known(g: Graph, k: ConfigKey) { BreakerOf(k) in g.breakers && k in g.configs }

  /** The status as of a time, with the cooldown it starts. */
  function Stamped(b: Breaker, c: Config, tripped: bool, mode: int, timestamp: int): Config {
    StampedFor(c, EffectiveCooldown(b.defaultCooldown, c.cooldownTime), tripped, mode, timestamp)
  }

  function StampedFor(c: Config, cooldown: int, tripped: bool, mode: int, timestamp: int): Config {
    c.(tripped := tripped, tradingMode := mode, lastStatusUpdatedAt := timestamp, cooldownEndsAt := ComputeCooldownEndsAt(timestamp, cooldown))
  }

  /** The owner's override of a feed's trading mode, on its enabled configs in another mode. */
  function Overridden(g: Graph, chain: int, feed: string, mode: int, timestamp: int): Graph {
    g.(configs := map k | k in g.configs :: OverriddenConfig(g, k, chain, feed, mode, timestamp))
  }

  function OverriddenConfig(g: Graph, k: ConfigKey, chain: int, feed: string, mode: int, timestamp: int): Config
    requires k in g.configs
  {
    if OverriddenBy(g, k, chain, feed, mode) then StampedFor(g.configs[k], CooldownOf(g, k), mode != 0, mode, timestamp) else g.configs[k]
  }

  predicate OverriddenBy(g: Graph, k: ConfigKey, chain: int, feed: string, mode: int) {
    && k in g.configs && k.chain == chain && k.feed == feed && g.configs[k].enabled && g.configs[k].tradingMode != mode
  }

  /** Without the breaker's row the config's own cooldown stands. */
  function CooldownOf(g: Graph, k: ConfigKey): int
    requires k in g.configs
  {
    if BreakerOf(k) in g.breakers then EffectiveCooldown(g.breakers[BreakerOf(k)].defaultCooldown, g.configs[k].cooldownTime) else g.configs[k].cooldownTime
  }

  function WithDefault(g: Graph, b: BreakerKey, change: DefaultChange): Graph
    requires b in g.breakers
  {
    match change
    case DefaultThreshold(threshold) => g.(breakers := g.breakers[b := g.breakers[b].(defaultThreshold := threshold)])
    case DefaultCooldown(cooldown) =>
      if g.breakers[b].defaultCooldown == cooldown then g
      else g.(breakers := g.breakers[b := g.breakers[b].(defaultCooldown := cooldown)], configs := Refreshed(g.configs, b, cooldown))
  }

  /** The configs that inherit the breaker's cooldown, with the end it gives them. */
  function Refreshed(configs: map<ConfigKey, Config>, b: BreakerKey, cooldown: int): map<ConfigKey, Config> {
    map k | k in configs :: RefreshedConfig(configs, k, b, cooldown)
  }

  function RefreshedConfig(configs: map<ConfigKey, Config>, k: ConfigKey, b: BreakerKey, cooldown: int): Config
    requires k in configs
  {
    if BreakerOf(k) == b && configs[k].cooldownTime <= 0
    then configs[k].(cooldownEndsAt := ComputeCooldownEndsAt(configs[k].lastStatusUpdatedAt, cooldown)) else configs[k]
  }

  function Changed(b: Breaker, c: Config, change: ConfigChange): Config {
    match change
    case OtherField => c
    case Threshold(threshold) => c.(threshold := threshold)
    case Cooldown(cooldown) =>
      if c.cooldownTime == cooldown then c
      else c.(cooldownTime := cooldown, cooldownEndsAt := ComputeCooldownEndsAt(c.lastStatusUpdatedAt, EffectiveCooldown(b.defaultCooldown, cooldown)))
  }

  // ---------------------------------------------------------------- events

  /** The config's rows ensured, the config replaced, and the feed synced. */
  ghost function SetAndSynced(s: State, k: ConfigKey, rpc: Rpc, change: (Breaker, Config) -> Config): State {
    var g := Ensured(s.graph, k, rpc);
    if !Known(g, k) then s.(graph := g)
    else
      var next := g.(configs := g.configs[k := change(g.breakers[BreakerOf(k)], g.configs[k])]);
      s.(graph := next, pools := Synced(next, s.pools, k.chain, k.feed))
  }

  predicate HasPools(pools: map<string, Pool>, chain: int, feed: string) {
    exists id :: id in pools && pools[id].chain == chain && pools[id].feed == feed
  }

  predicate HasConfigs(g: Graph, chain: int, feed: string) {
    exists k :: k in g.configs && k.chain == chain && k.feed == feed
  }

  /** A feed with pools but no config yet is bootstrapped and synced. */
  ghost function ColdStarted(s: State, chain: int, feed: string, timestamp: int, rpc: Rpc): State {
    if HasConfigs(s.graph, chain, feed) then s
    else
      var b := Bootstrapped(s.graph, s.caches, chain, feed, timestamp, rpc);
      State(b.graph, Synced(b.graph, s.pools, chain, feed), b.caches)
  }

  ghost function LoadedAndSynced(s: State, chain: int, feed: string, timestamp: int, force: bool, rpc: Rpc): State {
    var l := LoadedFrom(s.graph, s.caches, chain, feed, timestamp, force, rpc);
    State(l.graph, if force || l.loaded then Synced(l.graph, s.pools, chain, feed) else s.pools, l.caches)
  }

  ghost function After(s: State, x: Event): State {
    match x
    case BreakerAdded(chain, breaker, rpc) => s.(graph := s.graph.(breakers := BreakersWith(s.graph.breakers, BreakerKey(chain, AsAddress(breaker)), rpc)))
    case BreakerRemoved(chain, breaker) =>
      var key := BreakerKey(chain, AsAddress(breaker));
      var g := BreakerRemovedFrom(s.graph, key);
      s.(graph := g, pools := SyncedAll(g, s.pools, chain, FeedsOf(s.graph, key)))
    case BreakerStatusUpdated(chain, breaker, feed, enabled, rpc) =>
      SetAndSynced(s, KeyOf(chain, breaker, feed), rpc, (b: Breaker, c: Config) => c.(enabled := enabled))
    case BreakerTripped(chain, breaker, feed, timestamp, rpc) =>
      SetAndSynced(s, KeyOf(chain, breaker, feed), rpc, (b: Breaker, c: Config) => Stamped(b, c, true, b.activatesTradingMode, timestamp))
    case ResetSuccessful(chain, breaker, feed, timestamp, rpc) =>
      SetAndSynced(s, KeyOf(chain, breaker, feed), rpc, (b: Breaker, c: Config) => Stamped(b, c, false, 0, timestamp))
    case TradingModeUpdated(chain, feed, mode, timestamp, rpc) =>
      var f := AsAddress(feed);
      var b := Bootstrapped(s.graph, s.caches, chain, f, timestamp, rpc);
      var g := Overridden(b.graph, chain, f, mode, timestamp);
      State(g, Synced(g, s.pools, chain, f), b.caches)
    case RateFeedRemoved(chain, feed) =>
      var g := FeedRemoved(s.graph, chain, AsAddress(feed));
      s.(graph := g, pools := Synced(g, s.pools, chain, AsAddress(feed)))
    case RateFeedDependenciesSet(chain, feed, timestamp, rpc) => LoadedAndSynced(s, chain, AsAddress(feed), timestamp, true, rpc)
    case DefaultUpdated(chain, breaker, default, rpc) =>
      var b := BreakerKey(chain, AsAddress(breaker));
      var g := s.graph.(breakers := BreakersWith(s.graph.breakers, b, rpc));
      s.(graph := if b in g.breakers then WithDefault(g, b, default) else g)
    case FeedConfigUpdated(chain, breaker, feed, change, rpc) =>
      var k := KeyOf(chain, breaker, feed);
      var g := Ensured(s.graph, k, rpc);
      s.(graph := if Known(g, k) then g.(configs := g.configs[k := Changed(g.breakers[BreakerOf(k)], g.configs[k], change)]) else g)
    case OracleUpdated(chain, feed, timestamp, rpc) =>
      var f := AsAddress(feed);
      if !HasPools(s.pools, chain, f) then s
      else LoadedAndSynced(ColdStarted(s, chain, f, timestamp, rpc), chain, f, timestamp, false, rpc)
    case PoolCreated(id, chain) => if id in s.pools then s else s.(pools := s.pools[id := Pool(chain, "", false, false)])
    case PoolFoundVirtual(id) => if id in s.pools then s.(pools := s.pools[id := s.pools[id].(isVirtual := true)]) else s
    case FeedAssigned(id, feed) =>
      if id !in s.pools then s
      else s.(pools := s.pools[id := s.pools[id].(feed := AsAddress(feed), breakerTripped := TrippedOnFeedAssign(s.graph, s.pools[id], AsAddress(feed)))])
  }

  ghost function StateAfter(run: seq<Event>): State {
    if run == [] then EMPTY else After(StateAfter(run[..|run| - 1]), run[|run| - 1])
  }

  ghost predicate FlagsRight(s: State) { FlagsAgree(s.graph, s.pools) }

  // ---------------------------------------------------------------- when an event breaks a flag

  /** Known before the event: a config read without a sync finds a halt that some pool would have to
      show; a load does so outside the synced feeds; or a pool moves between feeds not halted alike. */
  ghost predicate Breaks(s: State, x: Event) {
    match x
    case FeedConfigUpdated(chain, breaker, feed, _, rpc) =>
      exists id :: id in s.pools && Stale(s.graph, chain, {Read(AsAddress(breaker), AsAddress(feed))}, rpc, s.pools[id])
    case RateFeedDependenciesSet(chain, feed, timestamp, rpc) =>
      LoadBreaks(s.graph, s.caches, s.pools, chain, AsAddress(feed), timestamp, true, rpc)
    case OracleUpdated(chain, feed, timestamp, rpc) =>
      HasPools(s.pools, chain, AsAddress(feed)) &&
      var t := ColdStarted(s, chain, AsAddress(feed), timestamp, rpc);
      LoadBreaks(t.graph, t.caches, t.pools, chain, AsAddress(feed), timestamp, false, rpc)
    case FeedAssigned(id, feed) =>
      id in s.pools && !s.pools[id].isVirtual && s.pools[id].feed != "" && feed != "" &&
      Halted(s.graph, s.pools[id].chain, s.pools[id].feed) != Halted(s.graph, s.pools[id].chain, AsAddress(feed))
    case _ => false
  }

  ghost predicate Sound(g: Graph) { BreakersKnown(g) && CooldownsRight(g) }

  lemma EnsuredReads(g: Graph, k: ConfigKey, rpc: Rpc)
    requires Sound(g)
    ensures
      var after, r := Ensured(g, k, rpc), Read(k.breaker, k.feed);
      && ReadsDone(g, after, k.chain, {r}, rpc) && Sound(after)
      && (BringsHalt(g, k.chain, r, rpc) ==> Known(after, k))
  {
    hide CooldownsRight, NewConfig;
    ReadOne(g, k.chain, Read(k.breaker, k.feed), rpc);
    ReadsKeepRows(g, Ensured(g, k, rpc), k.chain, {Read(k.breaker, k.feed)}, rpc);
  }

  /** A change of one config differs at its feed only. */
  lemma OneConfigDiffers(g: Graph, k: ConfigKey, rpc: Rpc, c: Config)
    requires Sound(g)
    ensures
      var after := Ensured(g, k, rpc);
      && DiffersOnlyAt(g, after, k.chain, k.feed)
      && (Known(after, k) ==> BreakersKnown(after.(configs := after.configs[k := c])) && DiffersOnlyAt(g, after.(configs := after.configs[k := c]), k.chain, k.feed))
  {
    hide CooldownsRight, NewConfig;
    EnsuredReads(g, k, rpc);
  }

  lemma CooldownOfOne(g: Graph, k: ConfigKey, c: Config)
    requires CooldownsRight(g) && Known(g, k) && CooldownRight(g.breakers[BreakerOf(k)], c)
    ensures CooldownsRight(g.(configs := g.configs[k := c]))
  {
    hide CooldownRight;
  }

  lemma SetAndSyncedIsRight(s: State, k: ConfigKey, rpc: Rpc, change: (Breaker, Config) -> Config)
    requires FlagsRight(s) && Sound(s.graph) && forall b, c :: CooldownRight(b, c) ==> CooldownRight(b, change(b, c))
    ensures FlagsRight(SetAndSynced(s, k, rpc, change)) && Sound(SetAndSynced(s, k, rpc, change).graph)
  {
    hide FlagsAgree, DiffersOnlyAt, HydratedWith, CooldownRight, Synced, ReadsDone, BringsHalt, Finds;
    var g := Ensured(s.graph, k, rpc);
    EnsuredReads(s.graph, k, rpc);
    if Known(g, k) {
      var c := change(g.breakers[BreakerOf(k)], g.configs[k]);
      OneConfigDiffers(s.graph, k, rpc, c);
      CooldownOfOne(g, k, c);
      SyncRestores(s.graph, g.(configs := g.configs[k := c]), s.pools, k.chain, k.feed);
    } else {
      QuietlyRight(s.graph, g, s.pools, k.chain, Read(k.breaker, k.feed), rpc);
    }
  }

  /** A single read that would find no halt keeps all flags right. */
  lemma QuietlyRight(g: Graph, after: Graph, pools: map<string, Pool>, chain: int, r: Read, rpc: Rpc)
    requires FlagsAgree(g, pools) && BreakersKnown(g) && ReadsDone(g, after, chain, {r}, rpc) && !BringsHalt(g, chain, r, rpc)
    ensures FlagsAgree(after, pools)
  {
    hide FlagsAgree, BreakersKnown, ReadsDone, BringsHalt;
    QuietReadsExactly(g, after, pools, chain, {r}, rpc);
  }

  lemma BootstrapDiffers(g: Graph, c: Caches, chain: int, feed: string, now: int, rpc: Rpc)
    requires Sound(g)
    ensures
      var b := Bootstrapped(g, c, chain, feed, now, rpc);
      Sound(b.graph) && DiffersOnlyAt(g, b.graph, chain, feed)
  {
    hide CooldownsRight, NewConfig, Bootstrapped, AsAddress;
    var b := Bootstrapped(g, c, chain, feed, now, rpc);
    var tried := MayTry(c, FeedConfigs(chain, feed), now) && rpc.breakerList.Some?;
    var asked := if tried then ReadsOf(rpc.breakerList.value, {feed}) else {};
    BootstrapReads(g, c, chain, feed, now, rpc);
    ReadsKeepRows(g, b.graph, chain, asked, rpc);
  }

  lemma OverrideDiffers(g: Graph, chain: int, feed: string, mode: int, timestamp: int)
    requires Sound(g)
    ensures
      var after := Overridden(g, chain, feed, mode, timestamp);
      Sound(after) && DiffersOnlyAt(g, after, chain, feed)
  {
  }

  lemma DiffersTwice(a: Graph, b: Graph, c: Graph, chain: int, feed: string)
    requires DiffersOnlyAt(a, b, chain, feed) && DiffersOnlyAt(b, c, chain, feed)
    ensures DiffersOnlyAt(a, c, chain, feed)
  {
  }

  lemma ColdStartIsRight(s: State, chain: int, feed: string, timestamp: int, rpc: Rpc)
    requires FlagsRight(s) && Sound(s.graph)
    ensures FlagsRight(ColdStarted(s, chain, feed, timestamp, rpc)) && Sound(ColdStarted(s, chain, feed, timestamp, rpc).graph)
  {
    hide FlagsAgree, Sound, DiffersOnlyAt, Bootstrapped, Synced;
    if !HasConfigs(s.graph, chain, feed) {
      BootstrapDiffers(s.graph, s.caches, chain, feed, timestamp, rpc);
      SyncRestores(s.graph, Bootstrapped(s.graph, s.caches, chain, feed, timestamp, rpc).graph, s.pools, chain, feed) by { SoundIsKnown(s.graph); }
    }
  }

  lemma SoundIsKnown(g: Graph)
    ensures Sound(g) <==> BreakersKnown(g) && CooldownsRight(g)
  {
  }

  lemma LoadIsRightExactly(s: State, chain: int, feed: string, timestamp: int, force: bool, rpc: Rpc)
    requires FlagsRight(s) && Sound(s.graph)
    ensures
      var t := LoadedAndSynced(s, chain, feed, timestamp, force, rpc);
      Sound(t.graph) && (FlagsRight(t) <==> !LoadBreaks(s.graph, s.caches, s.pools, chain, feed, timestamp, force, rpc))
  {
    hide FlagsAgree, LoadedFrom, BreakersKnown, CooldownsRight, Synced, Loads, Stale;
    LoadKeepsFlagsExactly(s.graph, s.caches, s.pools, chain, feed, timestamp, force, rpc);
  }

  lemma OneBreakerMore(g: Graph, pools: map<string, Pool>, b: BreakerKey, rpc: Rpc)
    requires FlagsAgree(g, pools) && Sound(g)
    ensures
      var after := g.(breakers := BreakersWith(g.breakers, b, rpc));
      FlagsAgree(after, pools) && Sound(after)
  {
    hide FlagsAgree, Stale;
    var after := g.(breakers := BreakersWith(g.breakers, b, rpc));
    assert ReadsDone(g, after, b.chain, {}, rpc);
    QuietReadsExactly(g, after, pools, b.chain, {}, rpc) by { assert BreakersKnown(g); }
    assert forall p :: !Stale(g, b.chain, {}, rpc, p) by { NothingFound(g, b.chain, rpc); }
  }

  lemma NothingFound(g: Graph, chain: int, rpc: Rpc)
    ensures forall p :: !Stale(g, chain, {}, rpc, p)
  {
  }

  /** Configs and breakers that keep what a halt reads keep every halt. */
  ghost predicate SameForHalts(g: Graph, after: Graph) {
    && g.edges == after.edges && g.breakers.Keys == after.breakers.Keys && g.configs.Keys == after.configs.Keys
    && (forall b :: b in g.breakers ==> g.breakers[b].kind == after.breakers[b].kind)
    && (forall k :: k in g.configs ==> SameStatus(g.configs[k], after.configs[k]))
  }

  lemma SameFlags(g: Graph, after: Graph, pools: map<string, Pool>)
    requires SameForHalts(g, after)
    ensures FlagsAgree(g, pools) == FlagsAgree(after, pools)
    ensures BreakersKnown(g) == BreakersKnown(after)
  {
    forall k ensures Halts(g, k) == Halts(after, k) {}
    forall c, f ensures OwnHalted(g, c, f) == OwnHalted(after, c, f) {}
    forall c, f ensures Halted(g, c, f) == Halted(after, c, f) { SameHalted(g, after, c, f); }
  }

  lemma SameHalted(g: Graph, after: Graph, c: int, f: string)
    requires g.edges == after.edges && forall c, f :: OwnHalted(g, c, f) == OwnHalted(after, c, f)
    ensures Halted(g, c, f) == Halted(after, c, f)
  {
    hide OwnHalted;
  }

  lemma DefaultIsRight(g: Graph, pools: map<string, Pool>, b: BreakerKey, default: DefaultChange)
    requires FlagsAgree(g, pools) && Sound(g) && b in g.breakers
    ensures FlagsAgree(WithDefault(g, b, default), pools) && Sound(WithDefault(g, b, default))
  {
    hide FlagsAgree;
    SameFlags(g, WithDefault(g, b, default), pools);
  }

  lemma ConfigChangeIsRightExactly(s: State, chain: int, breaker: string, feed: string, change: ConfigChange, rpc: Rpc)
    requires FlagsRight(s) && Sound(s.graph)
    ensures
      var x := FeedConfigUpdated(chain, breaker, feed, change, rpc);
      Sound(After(s, x).graph) && (FlagsRight(After(s, x)) <==> !Breaks(s, x))
  {
    hide FlagsAgree, AsAddress, HydratedWith, ReadsDone, Stale, BringsHalt;
    var k := KeyOf(chain, breaker, feed);
    var g := Ensured(s.graph, k, rpc);
    EnsuredReads(s.graph, k, rpc);
    QuietReadsExactly(s.graph, g, s.pools, chain, {Read(k.breaker, k.feed)}, rpc);
    if Known(g, k) {
      var c := Changed(g.breakers[BreakerOf(k)], g.configs[k], change);
      CooldownOfOne(g, k, c);
      SameFlags(g, g.(configs := g.configs[k := c]), s.pools);
    }
  }

  lemma PoolEventIsRightExactly(s: State, x: Event)
    requires FlagsRight(s) && (x.PoolCreated? || x.PoolFoundVirtual? || x.FeedAssigned?)
    ensures FlagsRight(After(s, x)) <==> !Breaks(s, x)
  {
    hide Halted;
    match x
    case PoolCreated(id, chain) => if id !in s.pools { OnePoolExactly(s.graph, s.pools, id, After(s, x).pools[id]); }
    case PoolFoundVirtual(id) => if id in s.pools { OnePoolExactly(s.graph, s.pools, id, After(s, x).pools[id]); }
    case FeedAssigned(id, feed) => if id in s.pools { OnePoolExactly(s.graph, s.pools, id, After(s, x).pools[id]); }
    case _ =>
  }

  lemma OnePoolExactly(g: Graph, pools: map<string, Pool>, id: string, p: Pool)
    requires FlagsAgree(g, pools)
    ensures FlagsAgree(g, pools[id := p]) <==> FlagRight(g, p)
  {
    hide FlagRight;
    assert pools[id := p][id] == p;
  }

  /** Every event keeps all flags right exactly unless it breaks one, as can be told beforehand. */
  lemma EventIsRightExactly(s: State, x: Event)
    requires FlagsRight(s) && Sound(s.graph)
    ensures Sound(After(s, x).graph) && (FlagsRight(After(s, x)) <==> !Breaks(s, x))
  {
    hide FlagsAgree, BreakersKnown, CooldownsRight, Synced, SyncedAll, HydratedWith, Bootstrapped, LoadedAndSynced, ColdStarted, LoadBreaks,
      BreakersWith, FeedRemoved, BreakerRemovedFrom, FeedsOf, Overridden, WithDefault, AsAddress, SetAndSynced, DiffersOnlyAt, Stale, HasPools, Halted;
    match x
    case BreakerAdded(chain, breaker, rpc) => OneBreakerMore(s.graph, s.pools, BreakerKey(chain, AsAddress(breaker)), rpc);
    case BreakerRemoved(chain, breaker) => BreakerRemovalIsRight(s, BreakerKey(chain, AsAddress(breaker)));
    case BreakerStatusUpdated(chain, breaker, feed, enabled, rpc) =>
      SetAndSyncedIsRight(s, KeyOf(chain, breaker, feed), rpc, (b: Breaker, c: Config) => c.(enabled := enabled));
    case BreakerTripped(chain, breaker, feed, timestamp, rpc) =>
      SetAndSyncedIsRight(s, KeyOf(chain, breaker, feed), rpc, (b: Breaker, c: Config) => Stamped(b, c, true, b.activatesTradingMode, timestamp));
    case ResetSuccessful(chain, breaker, feed, timestamp, rpc) =>
      SetAndSyncedIsRight(s, KeyOf(chain, breaker, feed), rpc, (b: Breaker, c: Config) => Stamped(b, c, false, 0, timestamp));
    case TradingModeUpdated(chain, feed, mode, timestamp, rpc) => OverrideIsRight(s, chain, AsAddress(feed), mode, timestamp, rpc);
    case RateFeedRemoved(chain, feed) => FeedRemovalIsRight(s, chain, AsAddress(feed));
    case RateFeedDependenciesSet(chain, feed, timestamp, rpc) => LoadIsRightExactly(s, chain, AsAddress(feed), timestamp, true, rpc);
    case DefaultUpdated(chain, breaker, default, rpc) =>
      var b := BreakerKey(chain, AsAddress(breaker));
      OneBreakerMore(s.graph, s.pools, b, rpc);
      var g := s.graph.(breakers := BreakersWith(s.graph.breakers, b, rpc));
      if b in g.breakers { DefaultIsRight(g, s.pools, b, default); }
    case FeedConfigUpdated(chain, breaker, feed, change, rpc) => ConfigChangeIsRightExactly(s, chain, breaker, feed, change, rpc);
    case OracleUpdated(chain, feed, timestamp, rpc) =>
      if HasPools(s.pools, chain, AsAddress(feed)) {
        ColdStartIsRight(s, chain, AsAddress(feed), timestamp, rpc);
        LoadIsRightExactly(ColdStarted(s, chain, AsAddress(feed), timestamp, rpc), chain, AsAddress(feed), timestamp, false, rpc);
      }
    case PoolCreated(_, _) => PoolEventIsRightExactly(s, x);
    case PoolFoundVirtual(_) => PoolEventIsRightExactly(s, x);
    case FeedAssigned(_, _) => PoolEventIsRightExactly(s, x);
  }

  lemma BreakerRemovalIsRight(s: State, key: BreakerKey)
    requires FlagsRight(s) && Sound(s.graph)
    ensures
      var g := BreakerRemovedFrom(s.graph, key);
      FlagsAgree(g, SyncedAll(g, s.pools, key.chain, FeedsOf(s.graph, key))) && Sound(g)
  {
    hide FlagsAgree, SyncedAll, FeedsOf;
    BreakerRemovalRestores(s.graph, s.pools, key);
  }

  lemma FeedRemovalIsRight(s: State, chain: int, feed: string)
    requires FlagsRight(s) && Sound(s.graph)
    ensures
      var g := FeedRemoved(s.graph, chain, feed);
      FlagsAgree(g, Synced(g, s.pools, chain, feed)) && Sound(g)
  {
    hide FlagsAgree, Synced, Halted;
    RemovalUnhalts(s.graph, s.pools, chain, feed);
  }

  lemma OverrideIsRight(s: State, chain: int, feed: string, mode: int, timestamp: int, rpc: Rpc)
    requires FlagsRight(s) && Sound(s.graph)
    ensures
      var g := Overridden(Bootstrapped(s.graph, s.caches, chain, feed, timestamp, rpc).graph, chain, feed, mode, timestamp);
      FlagsAgree(g, Synced(g, s.pools, chain, feed)) && Sound(g)
  {
    hide FlagsAgree, Synced, Sound, Bootstrapped, Overridden, DiffersOnlyAt;
    SoundIsKnown(s.graph);
    BootstrapDiffers(s.graph, s.caches, chain, feed, timestamp, rpc);
    var b := Bootstrapped(s.graph, s.caches, chain, feed, timestamp, rpc).graph;
    var g := Overridden(b, chain, feed, mode, timestamp);
    OverrideDiffers(b, chain, feed, mode, timestamp);
    DiffersTwice(s.graph, b, g, chain, feed);
    SyncRestores(s.graph, g, s.pools, chain, feed);
  }
}
