/** The pools' halt flags and the cooldown column over any run of events. */
module BreakerRuns {
  import opened Ordering
  import opened Outcomes
  import opened Breakers
  import opened BreakerHydration
  import opened BreakerEvents

  /** No event of the run meets its breaking condition. */
  ghost predicate NothingBreaks(run: seq<Event>) {
    forall n :: 0 <= n < |run| ==> !Breaks(StateAfter(run[..n]), run[n])
  }

  ghost predicate AlwaysRight(run: seq<Event>) {
    forall n :: 0 <= n <= |run| ==> FlagsRight(StateAfter(run[..n]))
  }

  lemma NothingYet()
    ensures FlagsRight(EMPTY) && Sound(EMPTY.graph)
  {
  }

  /** In every run a config's breaker has its row and the cooldown end follows from the status time
      and the effective cooldown, whatever happens to the flags. */
  lemma {:induction false} RowsAlwaysSound(run: seq<Event>)
    ensures Sound(StateAfter(run).graph)
  {
    hide Sound, After;
    if run == [] {
      NothingYet();
    } else {
      RowsAlwaysSound(run[..|run| - 1]);
      RowsStaySound(StateAfter(run[..|run| - 1]), run[|run| - 1]);
    }
  }

  /** Rows do not depend on the pools, so what is known of right flags carries over. */
  lemma RowsStaySound(s: State, x: Event)
    requires Sound(s.graph)
    ensures Sound(After(s, x).graph)
  {
    hide Sound, After;
    var bare := s.(pools := map[]);
    if x.OracleUpdated? {
      OracleRowsSound(s, x);
    } else {
      assert FlagsRight(bare);
      EventIsRightExactly(bare, x);
      SameRows(s, bare, x);
    }
  }

  lemma SameRows(s: State, t: State, x: Event)
    requires s.graph == t.graph && s.caches == t.caches && !x.OracleUpdated?
    ensures After(s, x).graph == After(t, x).graph
  {
    hide HydratedWith, Bootstrapped, LoadedFrom, Synced, SyncedAll, FeedRemoved, BreakerRemovedFrom, Overridden, WithDefault, BreakersWith;
  }

  lemma OracleRowsSound(s: State, x: Event)
    requires Sound(s.graph) && x.OracleUpdated?
    ensures Sound(After(s, x).graph)
  {
    hide Sound, Bootstrapped, LoadedFrom, Synced, FlagsAgree;
    var f := AsAddress(x.feed);
    BootstrapDiffers(s.graph, s.caches, x.chain, f, x.timestamp, x.rpc);
    var t := ColdStarted(s, x.chain, f, x.timestamp, x.rpc);
    var bare := t.(pools := map[]);
    assert FlagsAgree(bare.graph, bare.pools) by { NoPoolIsWrong(bare.graph); }
    LoadIsRightExactly(bare, x.chain, f, x.timestamp, false, x.rpc);
  }

  lemma NoPoolIsWrong(g: Graph)
    ensures FlagsAgree(g, map[])
  {
  }

  /** A run keeps every pool's flag equal to its feed's halt at every moment if and only if none of
      its events meets its breaking condition when it comes. */
  lemma {:induction false} AlwaysRightExactly(run: seq<Event>)
    ensures AlwaysRight(run) <==> NothingBreaks(run)
  {
    hide After, Breaks, FlagsRight;
    if run == [] {
      NothingYet();
    } else {
      var init, x := run[..|run| - 1], run[|run| - 1];
      AlwaysRightExactly(init);
      RowsAlwaysSound(init);
      Prefixes(run);
      if FlagsRight(StateAfter(init)) { EventIsRightExactly(StateAfter(init), x); }
    }
  }

  lemma Prefixes(run: seq<Event>)
    requires run != []
    ensures
      var init := run[..|run| - 1];
      && (AlwaysRight(run) <==> AlwaysRight(init) && FlagsRight(StateAfter(run)))
      && (NothingBreaks(run) <==> NothingBreaks(init) && !Breaks(StateAfter(init), run[|run| - 1]))
      && (AlwaysRight(init) ==> FlagsRight(StateAfter(init)))
  {
    hide FlagsRight, Breaks, StateAfter;
    var init := run[..|run| - 1];
    assert forall n :: 0 <= n < |run| ==> init[..n] == run[..n];
    assert run[..|run|] == run && init[..|init|] == init;
  }

  // ---------------------------------------------------------------- runs that go wrong

  /** A feed that has a config is never cold-started again, so once its dependencies are done or
      backing off its oracle events repair nothing. */
  lemma NoRepairOnceConfigured(s: State, chain: int, feed: string, timestamp: int, rpc: Rpc)
    requires HasConfigs(s.graph, chain, AsAddress(feed)) && !MayTry(s.caches, Dependencies(chain, AsAddress(feed)), timestamp)
    ensures After(s, OracleUpdated(chain, feed, timestamp, rpc)) == s
  {
    hide Synced, AsAddress;
  }

  /** The smallest such run: a pool gets its feed, whose dependencies are then read; a cooldown
      event then reads that the feed is tripped, and the flag stays wrong, oracle events or not. */
  lemma CooldownLeavesStale(run: seq<Event>, quiet: Rpc, rpc: Rpc, later: Event)
    requires quiet == Rpc(Some([]), map[], map[], map["f" := []])
    requires rpc == Rpc(Some(["x"]), map["x" := Breaker(MedianDelta, 0, 0, 3, false)], map[("x", "f") := FeedReply(true, 3, 0, 0, 5)], map[])
    requires run == [PoolCreated("p", 1), FeedAssigned("p", "f"), OracleUpdated(1, "f", 10, quiet), FeedConfigUpdated(1, "x", "f", Cooldown(60), rpc)]
    requires later == OracleUpdated(1, "f", 20, rpc)
    ensures AlwaysRight(run[..3]) && !FlagsRight(StateAfter(run)) && StateAfter(run + [later]) == StateAfter(run)
  {
    hide After, AlwaysRight, FlagsRight, HasConfigs, MayTry, AsAddress;
    StatesOfFour(run, later);
    var s2 := State(EMPTY.graph, map["p" := Pool(1, "f", false, false)], NO_CACHES);
    PoolGetsFeed(s2);
    FirstOracleEvent(s2, quiet);
    var s3 := After(s2, run[2]);
    CooldownFindsHalt(s3, rpc);
    NothingYet();
    AddressF();
    NoRepairOnceConfigured(StateAfter(run), 1, "f", 20, rpc);
    FirstThreeRight(run);
  }

  lemma AddressF()
    ensures AsAddress("f") == "f" && AsAddress("x") == "x"
  {
  }

  lemma StatesOfFour(run: seq<Event>, later: Event)
    requires |run| == 4
    ensures StateAfter(run[..1]) == After(EMPTY, run[0]) && StateAfter(run[..2]) == After(StateAfter(run[..1]), run[1])
    ensures StateAfter(run[..3]) == After(StateAfter(run[..2]), run[2]) && StateAfter(run) == After(StateAfter(run[..3]), run[3])
    ensures StateAfter(run + [later]) == After(StateAfter(run), later)
  {
    hide After;
    assert run[..1][..0] == [] && run[..2][..1] == run[..1] && run[..3][..2] == run[..2] && run[..|run| - 1] == run[..3];
    assert (run + [later])[..|run + [later]| - 1] == run;
  }

  lemma FirstThreeRight(run: seq<Event>)
    requires |run| == 4 && FlagsRight(EMPTY) && FlagsRight(StateAfter(run[..1])) && FlagsRight(StateAfter(run[..2])) && FlagsRight(StateAfter(run[..3]))
    ensures AlwaysRight(run[..3])
  {
    hide After, FlagsRight;
    forall n | 0 <= n <= 3 ensures FlagsRight(StateAfter(run[..3][..n])) {
      assert run[..3][..n] == run[..n];
      if n == 0 { assert run[..0] == []; }
    }
  }

  lemma PoolGetsFeed(s: State)
    requires s == State(EMPTY.graph, map["p" := Pool(1, "f", false, false)], NO_CACHES)
    ensures
      var created := After(EMPTY, PoolCreated("p", 1));
      FlagsRight(created) && After(created, FeedAssigned("p", "f")) == s && FlagsRight(s)
  {
    assert !Halted(EMPTY.graph, 1, "f");
  }

  lemma CooldownFindsHalt(s: State, rpc: Rpc)
    requires s.graph == EMPTY.graph && s.pools == map["p" := Pool(1, "f", false, false)] && Dependencies(1, "f") in s.caches.attempted
    requires rpc == Rpc(Some(["x"]), map["x" := Breaker(MedianDelta, 0, 0, 3, false)], map[("x", "f") := FeedReply(true, 3, 0, 0, 5)], map[])
    ensures
      var t := After(s, FeedConfigUpdated(1, "x", "f", Cooldown(60), rpc));
      && FlagsRight(s) && !FlagsRight(t) && HasConfigs(t.graph, 1, "f") && !MayTry(t.caches, Dependencies(1, "f"), 20)
  {
    hide FlagsRight;
    AddressF();
    var t := After(s, FeedConfigUpdated(1, "x", "f", Cooldown(60), rpc));
    var k := ConfigKey(1, "x", "f");
    assert Known(t.graph, k) && t.graph.configs[k].enabled && t.graph.configs[k].tripped && t.graph.breakers[BreakerOf(k)].kind == MedianDelta;
    assert Halts(t.graph, k);
    OnePoolWrong(s, t, k);
  }

  lemma OnePoolWrong(s: State, t: State, k: ConfigKey)
    requires s.graph == EMPTY.graph && s.pools == t.pools == map["p" := Pool(1, "f", false, false)]
    requires k == ConfigKey(1, "x", "f") && Halts(t.graph, k)
    ensures FlagsRight(s) && !FlagsRight(t)
  {
    assert !Halted(s.graph, 1, "f");
    assert OwnHalted(t.graph, 1, "f") && t.pools["p"] == Pool(1, "f", false, false);
    assert !FlagRight(t.graph, t.pools["p"]);
  }

  /** With no breaker registered and no dependency, both reads are done for good and find nothing. */
  lemma FirstOracleEvent(s: State, quiet: Rpc)
    requires s == State(EMPTY.graph, map["p" := Pool(1, "f", false, false)], NO_CACHES)
    requires quiet == Rpc(Some([]), map[], map[], map["f" := []])
    ensures
      var t := After(s, OracleUpdated(1, "f", 10, quiet));
      && t.graph == s.graph && t.pools == s.pools
      && Dependencies(1, "f") in t.caches.attempted && FlagsRight(t)
  {
    assert !Halted(s.graph, 1, "f");
    assert AsAddress("f") == "f";
    assert s.pools["p"].feed == "f";
  }

  // ---------------------------------------------------------------- a load that goes wrong

  /** Feed "c" already depends on "b"; loading the dependencies of "a" reads that "b" is tripped, and
      the pool on "c" keeps its old flag. */
  lemma LoadingLeavesStale(s: State, rpc: Rpc)
    requires s == State(Graph(map[BreakerKey(1, "x") := Breaker(MedianDelta, 0, 0, 3, false)], map[], {Edge(1, "c", "b")}),
                        map["p" := Pool(1, "c", false, false)], NO_CACHES)
    requires rpc == Rpc(Some(["x"]), map[], map[("x", "b") := FeedReply(true, 3, 0, 0, 5)], map["a" := ["b"]])
    ensures FlagsRight(s) && !FlagsRight(After(s, RateFeedDependenciesSet(1, "a", 10, rpc)))
  {
    hide After;
    assert !Halted(s.graph, 1, "c");
    assert FlagsRight(s) && Sound(s.graph);
    OneDependency(Linked(s.graph, 1, "a", rpc), rpc);
    assert AsAddress("a") == "a" && AsAddress("x") == "x";
    var r := Read("x", "b");
    assert r in LoadReads(s.graph, s.caches, 1, "a", 10, rpc);
    assert BringsHalt(s.graph, 1, r, rpc) && Edge(1, "c", "b") in s.graph.edges;
    assert Stale(s.graph, 1, LoadReads(s.graph, s.caches, 1, "a", 10, rpc), rpc, s.pools["p"]);
    assert !Recomputed(s.graph, 1, "a", s.pools["p"]);
    EventIsRightExactly(s, RateFeedDependenciesSet(1, "a", 10, rpc));
  }

  lemma OneDependency(g: Graph, rpc: Rpc)
    requires rpc.breakerList == Some(["x"])
    ensures Read(AsAddress("x"), "b") in ReadsTried(g, NO_CACHES, 1, ["b"], 10, rpc)
  {
    assert AsAddress("b") == "b" && ["b"][..0] == [] && ["b"][0] == "b";
    assert Tried(g, NO_CACHES, 1, [], 10, rpc) == {} && BootstrappedAll(g, NO_CACHES, 1, [], 10, rpc).caches == NO_CACHES;
    assert "b" in Tried(g, NO_CACHES, 1, ["b"], 10, rpc);
    assert "x" in ["x"];
  }
}
