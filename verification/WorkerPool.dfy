/** Bounded worker pools that share an index counter and fill a results array. */
module WorkerPool {
  import opened Arithmetic
  import opened Outcomes

  /** A worker is between items, awaiting the result of one, or finished; `Broken` if its call threw. */
  datatype Worker = Ready | Awaiting(index: nat) | Stopped | Broken

  /** `claimed` lists the indices in the order they were taken. */
  datatype Pool<R> = Pool(nextIndex: nat, workers: seq<Worker>, results: seq<Option<R>>, claimed: seq<nat>)

  function NewPool<R>(items: nat, concurrency: nat): Pool<R> {
    var count := Min(concurrency, items);
    Pool(0, seq(count, i => Ready), seq(items, i => None), [])
  }

  /** Atomic stretches between awaits. Taking an index and testing it is one of them, whether
      the counter is bumped before the test or only when an item is left. */
  datatype Step<R> = Take(worker: nat) | Deliver(worker: nat, result: R) | Throw(worker: nat)

  predicate Enabled<R>(s: Pool<R>, x: Step<R>) {
    && x.worker < |s.workers|
    && (if x.Take? then s.workers[x.worker] == Ready else s.workers[x.worker].Awaiting?)
  }

  /** `bumpFirst`: the counter moves even when no item is left. */
  function After<R>(s: Pool<R>, bumpFirst: bool, x: Step<R>): Pool<R>
    requires Enabled(s, x)
  {
    match x
    case Take(w) =>
      if s.nextIndex >= |s.results| then
        s.(workers := s.workers[w := Stopped], nextIndex := if bumpFirst then s.nextIndex + 1 else s.nextIndex)
      else
        s.(workers := s.workers[w := Awaiting(s.nextIndex)], nextIndex := s.nextIndex + 1, claimed := s.claimed + [s.nextIndex])
    case Deliver(w, r) =>
      var i := s.workers[w].index;
      s.(workers := s.workers[w := Ready], results := if i < |s.results| then s.results[i := Some(r)] else s.results)
    case Throw(w) => s.(workers := s.workers[w := Broken])
  }

  /** What a delivery is: the result of the call on the item the worker had taken. */
  ghost predicate Honest<R>(s: Pool<R>, produces: (nat, R) -> bool, x: Step<R>)
    requires Enabled(s, x)
  {
    x.Deliver? ==> produces(s.workers[x.worker].index, x.result)
  }

  /** The state after a run of `items` items, if every step of it was possible and honest. */
  ghost function PoolAfter<R>(items: nat, concurrency: nat, bumpFirst: bool, produces: (nat, R) -> bool, run: seq<Step<R>>): Option<Pool<R>> {
    if run == [] then Some(NewPool(items, concurrency)) else
      match PoolAfter(items, concurrency, bumpFirst, produces, run[..|run| - 1])
      case Some(s) =>
        if Enabled(s, run[|run| - 1]) && Honest(s, produces, run[|run| - 1]) then Some(After(s, bumpFirst, run[|run| - 1])) else None
      case None => None
  }

  /** The steps of a run, one after another. */
  method RunPool<R>(items: nat, concurrency: nat, bumpFirst: bool, ghost produces: (nat, R) -> bool, run: seq<Step<R>>)
    returns (s: Pool<R>)
    requires PoolAfter(items, concurrency, bumpFirst, produces, run).Some?
    ensures PoolAfter(items, concurrency, bumpFirst, produces, run) == Some(s)
  {
    hide After, Enabled, NewPool;
    s := NewPool(items, concurrency);
    for i := 0 to |run|
      invariant PoolAfter(items, concurrency, bumpFirst, produces, run[..i]) == Some(s)
    {
      PrefixIsRun(items, concurrency, bumpFirst, produces, run, i + 1);
      assert run[..i + 1][..i] == run[..i] && run[..i + 1][i] == run[i];
      s := After(s, bumpFirst, run[i]);
    }
    assert run[..|run|] == run;
  }

  lemma {:induction false} PrefixIsRun<R>(items: nat, concurrency: nat, bumpFirst: bool, produces: (nat, R) -> bool, run: seq<Step<R>>, i: nat)
    requires i <= |run| && PoolAfter(items, concurrency, bumpFirst, produces, run).Some?
    ensures PoolAfter(items, concurrency, bumpFirst, produces, run[..i]).Some?
    decreases |run|
  {
    hide After, Enabled;
    if i == |run| {
      assert run[..i] == run;
    } else {
      PrefixIsRun(items, concurrency, bumpFirst, produces, run[..|run| - 1], i);
      assert run[..|run| - 1][..i] == run[..i];
    }
  }

  /** Index `i` is with worker `w`. */
  predicate HeldBy<R>(s: Pool<R>, w: nat, i: nat) {
    w < |s.workers| && s.workers[w] == Awaiting(i)
  }

  ghost predicate AnyBroken<R>(s: Pool<R>) {
    exists w :: 0 <= w < |s.workers| && s.workers[w] == Broken
  }

  ghost predicate Faithful<R>(s: Pool<R>, items: nat, concurrency: nat, produces: (nat, R) -> bool) {
    && |s.results| == items && |s.workers| == Min(concurrency, items)
    && |s.claimed| == Min(s.nextIndex, items) && (forall k :: 0 <= k < |s.claimed| ==> s.claimed[k] == k)
    && (forall w: nat, i: nat :: HeldBy(s, w, i) ==> i < |s.claimed| && s.results[i].None?)
    && (forall v: nat, w: nat, i: nat :: HeldBy(s, v, i) && HeldBy(s, w, i) ==> v == w)
    && (forall i :: 0 <= i < items && s.results[i].Some? ==> i < |s.claimed| && produces(i, s.results[i].value))
    && (!AnyBroken(s) ==> forall i :: 0 <= i < |s.claimed| && s.results[i].None? ==> exists w: nat :: HeldBy(s, w, i))
    && (forall w :: 0 <= w < |s.workers| && s.workers[w] == Stopped ==> s.nextIndex >= items)
  }

  lemma TakeIsFaithful<R>(s: Pool<R>, items: nat, concurrency: nat, bumpFirst: bool, produces: (nat, R) -> bool, x: Step<R>)
    requires Faithful(s, items, concurrency, produces) && x.Take? && Enabled(s, x)
    ensures Faithful(After(s, bumpFirst, x), items, concurrency, produces)
  {
    var t, w := After(s, bumpFirst, x), x.worker;
    forall v: nat, i ensures HeldBy(t, v, i) <==> (v != w && HeldBy(s, v, i)) || (v == w && t.workers[w] == Awaiting(i)) {}
    if !AnyBroken(t) {
      forall v | 0 <= v < |s.workers| ensures s.workers[v] != Broken { assert v != w ==> t.workers[v] == s.workers[v]; }
      forall i | 0 <= i < |t.claimed| && t.results[i].None? ensures exists v: nat :: HeldBy(t, v, i) {
        if i == |s.claimed| {
          assert HeldBy(t, w, i);
        } else {
          var v: nat :| HeldBy(s, v, i);
          assert HeldBy(t, v, i);
        }
      }
    }
  }

  lemma DeliverIsFaithful<R>(s: Pool<R>, items: nat, concurrency: nat, bumpFirst: bool, produces: (nat, R) -> bool, x: Step<R>)
    requires Faithful(s, items, concurrency, produces) && x.Deliver? && Enabled(s, x) && Honest(s, produces, x)
    ensures Faithful(After(s, bumpFirst, x), items, concurrency, produces)
  {
    var t, w, done := After(s, bumpFirst, x), x.worker, s.workers[x.worker].index;
    assert HeldBy(s, w, done);
    forall v: nat, i ensures HeldBy(t, v, i) <==> v != w && HeldBy(s, v, i) {}
    if !AnyBroken(t) {
      forall v | 0 <= v < |s.workers| ensures s.workers[v] != Broken { assert v != w ==> t.workers[v] == s.workers[v]; }
      forall i | 0 <= i < |t.claimed| && t.results[i].None? ensures exists v: nat :: HeldBy(t, v, i) {
        var v: nat :| HeldBy(s, v, i);
        assert HeldBy(t, v, i);
      }
    }
  }

  lemma ThrowIsFaithful<R>(s: Pool<R>, items: nat, concurrency: nat, bumpFirst: bool, produces: (nat, R) -> bool, x: Step<R>)
    requires Faithful(s, items, concurrency, produces) && x.Throw? && Enabled(s, x)
    ensures Faithful(After(s, bumpFirst, x), items, concurrency, produces) && AnyBroken(After(s, bumpFirst, x))
  {
    var t, w := After(s, bumpFirst, x), x.worker;
    assert t.workers[w] == Broken;
    forall v: nat, i ensures HeldBy(t, v, i) <==> v != w && HeldBy(s, v, i) {}
  }

  lemma {:induction false} AlwaysFaithful<R>(items: nat, concurrency: nat, bumpFirst: bool, produces: (nat, R) -> bool, run: seq<Step<R>>)
    requires PoolAfter(items, concurrency, bumpFirst, produces, run).Some?
    ensures Faithful(PoolAfter(items, concurrency, bumpFirst, produces, run).value, items, concurrency, produces)
  {
    hide Faithful, After;
    if run == [] {
      NewIsFaithful(items, concurrency, produces);
    } else {
      var init, x := run[..|run| - 1], run[|run| - 1];
      AlwaysFaithful(items, concurrency, bumpFirst, produces, init);
      var s := PoolAfter(items, concurrency, bumpFirst, produces, init).value;
      match x {
        case Take(_) => TakeIsFaithful(s, items, concurrency, bumpFirst, produces, x);
        case Deliver(_, _) => DeliverIsFaithful(s, items, concurrency, bumpFirst, produces, x);
        case Throw(_) => ThrowIsFaithful(s, items, concurrency, bumpFirst, produces, x);
      }
    }
  }

  lemma NewIsFaithful<R>(items: nat, concurrency: nat, produces: (nat, R) -> bool)
    ensures Faithful(NewPool<R>(items, concurrency), items, concurrency, produces)
  {
  }

  function TakesIn<R>(run: seq<Step<R>>): nat {
    if run == [] then 0 else TakesIn(run[..|run| - 1]) + (if run[|run| - 1].Take? then 1 else 0)
  }

  /** The counter is the number of items taken, or, if it moves first, of attempts to take one. */
  lemma {:induction false} CounterMeans<R>(items: nat, concurrency: nat, bumpFirst: bool, produces: (nat, R) -> bool, run: seq<Step<R>>)
    requires PoolAfter(items, concurrency, bumpFirst, produces, run).Some?
    ensures
      var s := PoolAfter(items, concurrency, bumpFirst, produces, run).value;
      s.nextIndex == if bumpFirst then TakesIn(run) else |s.claimed|
  {
    hide Honest;
    if run != [] { CounterMeans(items, concurrency, bumpFirst, produces, run[..|run| - 1]); }
  }

  ghost function InFlight<R>(s: Pool<R>): set<nat> {
    set w | 0 <= w < |s.workers| && s.workers[w].Awaiting?
  }

  lemma Below(n: nat, members: set<nat>)
    requires forall m :: m in members ==> m < n
    ensures |members| <= n
  {
    if n == 0 {
      assert members == {};
    } else {
      Below(n - 1, members - {n - 1});
      if n - 1 in members { assert members == members - {n - 1} + {n - 1}; }
    }
  }

  /** Under every interleaving: indices are taken once each and in order, and at most
      min(concurrency, n) calls are in flight. */
  lemma NeverTooManyCalls<R>(items: nat, concurrency: nat, bumpFirst: bool, produces: (nat, R) -> bool, run: seq<Step<R>>)
    requires PoolAfter(items, concurrency, bumpFirst, produces, run).Some?
    ensures
      var s := PoolAfter(items, concurrency, bumpFirst, produces, run).value;
      && |InFlight(s)| <= Min(concurrency, items)
      && s.claimed == seq(|s.claimed|, k => k) && |s.claimed| <= items
  {
    AlwaysFaithful(items, concurrency, bumpFirst, produces, run);
    var s := PoolAfter(items, concurrency, bumpFirst, produces, run).value;
    Below(|s.workers|, InFlight(s));
  }

  /** When all workers have stopped, slot i holds the result of the call on item i. */
  lemma ResultsInOrder<R>(items: nat, concurrency: nat, bumpFirst: bool, produces: (nat, R) -> bool, run: seq<Step<R>>)
    requires concurrency >= 1 && PoolAfter(items, concurrency, bumpFirst, produces, run).Some?
    requires forall w :: w in PoolAfter(items, concurrency, bumpFirst, produces, run).value.workers ==> w == Stopped
    ensures
      var s := PoolAfter(items, concurrency, bumpFirst, produces, run).value;
      |s.results| == items && forall i :: 0 <= i < items ==> s.results[i].Some? && produces(i, s.results[i].value)
  {
    AlwaysFaithful(items, concurrency, bumpFirst, produces, run);
    var s := PoolAfter(items, concurrency, bumpFirst, produces, run).value;
    forall w | 0 <= w < |s.workers| ensures s.workers[w] == Stopped { assert s.workers[w] in s.workers; }
    assert !AnyBroken(s);
    if items > 0 { assert s.workers[0] == Stopped; }
    forall w: nat, i ensures !HeldBy(s, w, i) {}
  }

  /** Steps still to come, an upper bound that every step lowers: the pool cannot run forever. */
  ghost function Remaining<R>(s: Pool<R>): nat {
    2 * (|s.results| - Min(s.nextIndex, |s.results|)) + Weight(s.workers)
  }

  ghost function Weight(workers: seq<Worker>): nat {
    if workers == [] then 0 else
      Weight(workers[..|workers| - 1]) +
      (match workers[|workers| - 1] case Ready => 1 case Awaiting(_) => 2 case _ => 0)
  }

  ghost function WeightOf(w: Worker): nat {
    match w case Ready => 1 case Awaiting(_) => 2 case _ => 0
  }

  lemma {:induction false} WeightChanges(workers: seq<Worker>, w: nat, now: Worker)
    requires w < |workers|
    ensures Weight(workers[w := now]) == Weight(workers) - WeightOf(workers[w]) + WeightOf(now)
  {
    var n := |workers| - 1;
    if w == n {
      assert workers[w := now][..n] == workers[..n];
    } else {
      assert workers[w := now][..n] == workers[..n][w := now];
      WeightChanges(workers[..n], w, now);
    }
  }

  lemma EveryStepCounts<R>(s: Pool<R>, bumpFirst: bool, x: Step<R>)
    requires Enabled(s, x)
    ensures Remaining(After(s, bumpFirst, x)) < Remaining(s)
  {
    match x {
      case Take(w) =>
        WeightChanges(s.workers, w, Stopped);
        WeightChanges(s.workers, w, Awaiting(s.nextIndex));
      case Deliver(w, r) => WeightChanges(s.workers, w, Ready);
      case Throw(w) => WeightChanges(s.workers, w, Broken);
    }
  }
}
