/** A counting semaphore that hands a released slot straight to the longest waiting caller. */
module Semaphore {
  import opened Ordering
  import opened Outcomes

  datatype SemaphoreError = InvalidLimit

  datatype Slots = Slots(activeCount: int, waiters: seq<nat>)

  function Acquired(s: Slots, limit: nat, caller: nat): (Slots, bool) {
    if s.activeCount < limit then (s.(activeCount := s.activeCount + 1), true) else (s.(waiters := s.waiters + [caller]), false)
  }

  function Released(s: Slots): (Slots, Option<nat>) {
    if s.waiters != [] then (s.(waiters := s.waiters[1..]), Some(s.waiters[0])) else (s.(activeCount := s.activeCount - 1), None)
  }

  class AsyncSemaphore {
    const limit: nat
    var activeCount: int
    var waiters: seq<nat>

    ghost function View(): Slots
      reads this
    {
      Slots(activeCount, waiters)
    }

    constructor (limit: nat)
      requires limit >= 1
      ensures this.limit == limit && View() == Slots(0, [])
    {
      this.limit := limit;
      activeCount, waiters := 0, [];
    }

    method Acquire(caller: nat) returns (granted: bool)
      modifies this
      ensures (View(), granted) == Acquired(old(View()), limit, caller)
    {
      if activeCount < limit {
        activeCount := activeCount + 1;
        return true;
      }
      waiters := waiters + [caller];
      granted := false;
    }

    method Release() returns (next: Option<nat>)
      modifies this
      ensures (View(), next) == Released(old(View()))
    {
      if |waiters| > 0 {
        next := Some(waiters[0]);
        waiters := waiters[1..];
        return;
      }
      next := None;
      activeCount := activeCount - 1;
    }
  }

  /** A new semaphore; a limit below one is refused. */
  method NewSemaphore(limit: int) returns (r: Result<AsyncSemaphore, SemaphoreError>)
    ensures r.Ok? <==> limit > 0
    ensures r.Ok? ==> fresh(r.value) && r.value.limit == limit && r.value.View() == Slots(0, [])
  {
    if limit < 1 { return Err(InvalidLimit); }
    var semaphore := new AsyncSemaphore(limit);
    r := Ok(semaphore);
  }

  // ---------------------------------------------------------------- interleavings of run()

  /** A caller waits for a slot, has just been given one, runs its task, or is done. */
  datatype Phase = Waiting | Granted | Running | Done

  datatype System = System(slots: Slots, phases: map<nat, Phase>, calls: seq<nat>, grants: seq<nat>)

  /** What can happen between two awaits: a new call, a granted task starting, a running task
      settling (whether it succeeds or throws, the slot is released). */
  datatype Step = Call(caller: nat) | Start(caller: nat) | Settle(caller: nat)

  const IDLE := System(Slots(0, []), map[], [], [])

  predicate Enabled(s: System, x: Step) {
    match x
    case Call(c) => c !in s.phases
    case Start(c) => c in s.phases && s.phases[c] == Granted
    case Settle(c) => c in s.phases && s.phases[c] == Running
  }

  function After(s: System, limit: nat, x: Step): System
    requires Enabled(s, x)
  {
    match x
    case Call(c) =>
      var (slots, granted) := Acquired(s.slots, limit, c);
      System(slots, s.phases[c := if granted then Granted else Waiting], s.calls + [c], if granted then s.grants + [c] else s.grants)
    case Start(c) => s.(phases := s.phases[c := Running])
    case Settle(c) =>
      var (slots, next) := Released(s.slots);
      if next.Some?
      then System(slots, s.phases[c := Done][next.value := Granted], s.calls, s.grants + [next.value])
      else System(slots, s.phases[c := Done], s.calls, s.grants)
  }

  /** The state after a run, if every step of it was possible. */
  ghost function SystemAfter(limit: nat, run: seq<Step>): Option<System> {
    if run == [] then Some(IDLE) else
      match SystemAfter(limit, run[..|run| - 1])
      case Some(s) => if Enabled(s, run[|run| - 1]) then Some(After(s, limit, run[|run| - 1])) else None
      case None => None
  }

  /** Those holding a slot: running, or just handed one. */
  ghost function Holders(s: System): set<nat> {
    set c | c in s.phases && (s.phases[c] == Granted || s.phases[c] == Running)
  }

  /** Slots are never lost or invented, and only waited for when all are held. */
  ghost predicate Counted(s: System, limit: nat) {
    && |Holders(s)| == s.slots.activeCount <= limit
    && (s.slots.waiters != [] ==> s.slots.activeCount == limit)
  }

  /** Slots are granted in the order of the calls. */
  ghost predicate InOrder(s: System) {
    s.calls == s.grants + s.slots.waiters && Distinct(s.calls) && Elements(s.calls) == s.phases.Keys
  }

  ghost predicate QueueHoldsWaiting(s: System) {
    forall c :: c in s.phases ==> (s.phases[c] == Waiting <==> c in s.slots.waiters)
  }

  ghost predicate Safe(s: System, limit: nat) {
    Counted(s, limit) && InOrder(s) && QueueHoldsWaiting(s)
  }

  lemma NewHolder(s: System, t: System, c: nat, phase: Phase)
    requires c !in s.phases && t.phases == s.phases[c := phase]
    ensures Holders(t) == Holders(s) + (if phase == Granted || phase == Running then {c} else {}) && c !in Holders(s)
  {
  }

  lemma CallKeepsOrder(s: System, limit: nat, c: nat)
    requires InOrder(s) && c !in s.phases && (s.slots.waiters != [] ==> s.slots.activeCount == limit)
    ensures InOrder(After(s, limit, Call(c))) && c !in s.calls
  {
    hide Distinct, Elements;
    var t := After(s, limit, Call(c));
    assert c !in s.calls by { InElements(c, s.calls); }
    DistinctAppend(s.calls, c);
    assert t.phases.Keys == s.phases.Keys + {c};
    if s.slots.activeCount < limit {
      assert s.calls == s.grants && t.calls == t.grants + [];
    } else {
      assert t.calls == s.grants + (s.slots.waiters + [c]);
    }
  }

  lemma CallIsSafe(s: System, limit: nat, c: nat)
    requires Safe(s, limit) && c !in s.phases
    ensures Safe(After(s, limit, Call(c)), limit)
  {
    hide Distinct, Elements, Holders;
    var t := After(s, limit, Call(c));
    CallKeepsOrder(s, limit, c);
    forall x | x in s.slots.waiters ensures x != c { assert x in s.calls; }
    NewHolder(s, t, c, if s.slots.activeCount < limit then Granted else Waiting);
    assert Holders(s) + {} == Holders(s);
  }

  lemma StartIsSafe(s: System, limit: nat, c: nat)
    requires Safe(s, limit) && Enabled(s, Start(c))
    ensures Safe(After(s, limit, Start(c)), limit)
  {
    assert Holders(After(s, limit, Start(c))) == Holders(s);
  }

  lemma SettledHolders(s: System, t: System, c: nat, next: Option<nat>)
    requires c in Holders(s) && (next.Some? ==> next.value in s.phases && next.value !in Holders(s))
    requires t.phases == if next.Some? then s.phases[c := Done][next.value := Granted] else s.phases[c := Done]
    ensures Holders(t) == Holders(s) - {c} + (if next.Some? then {next.value} else {})
  {
    forall x: nat ensures x in Holders(t) <==> x in Holders(s) - {c} + (if next.Some? then {next.value} else {}) {}
  }

  lemma HandOverKeepsOrder(s: System, limit: nat, c: nat)
    requires InOrder(s) && c in s.phases && s.slots.waiters != [] && s.slots.waiters[0] in s.phases && Enabled(s, Settle(c))
    ensures InOrder(After(s, limit, Settle(c))) && s.slots.waiters[0] !in s.slots.waiters[1..]
  {
    hide Elements;
    var next, rest := s.slots.waiters[0], s.slots.waiters[1..];
    assert s.slots.waiters == [next] + rest;
    assert s.calls == (s.grants + [next]) + rest;
    NextLeaves(s.calls, s.grants, next, rest);
    KeysKept(s, c, next);
  }

  lemma SettleIsSafe(s: System, limit: nat, c: nat)
    requires Safe(s, limit) && Enabled(s, Settle(c))
    ensures Safe(After(s, limit, Settle(c)), limit)
  {
    hide Distinct, Elements, Holders;
    var t := After(s, limit, Settle(c));
    assert c in Holders(s) by { HoldsSlot(s, c); }
    if s.slots.waiters == [] {
      SettledHolders(s, t, c, None);
      KeysKept(s, c, c);
      assert Holders(s) - {c} + {} == Holders(s) - {c};
    } else {
      var next, rest := s.slots.waiters[0], s.slots.waiters[1..];
      assert s.slots.waiters == [next] + rest;
      WaitersAreWaiting(s, limit);
      assert next !in Holders(s) by { HoldsSlot(s, next); }
      SettledHolders(s, t, c, Some(next));
      HandOverKeepsOrder(s, limit, c);
    }
  }

  lemma HoldsSlot(s: System, c: nat)
    requires c in s.phases
    ensures c in Holders(s) <==> s.phases[c] == Granted || s.phases[c] == Running
  {
  }

  lemma KeysKept(s: System, c: nat, next: nat)
    requires c in s.phases && next in s.phases
    ensures s.phases[c := Done][next := Granted].Keys == s.phases.Keys && s.phases[c := Done].Keys == s.phases.Keys
  {
  }

  lemma NextLeaves(calls: seq<nat>, grants: seq<nat>, next: nat, rest: seq<nat>)
    requires Distinct(calls) && calls == grants + ([next] + rest)
    ensures next !in rest
  {
    assert calls[|grants|] == next;
    assert forall i :: 0 <= i < |rest| ==> calls[|grants| + 1 + i] == rest[i];
  }

  /** Under every interleaving: holders are the active count and never exceed the limit, nobody
      waits while a slot is free, and slots are granted in arrival order. */
  lemma {:induction false} AlwaysSafe(limit: nat, run: seq<Step>)
    requires SystemAfter(limit, run).Some?
    ensures Safe(SystemAfter(limit, run).value, limit)
  {
    hide Safe, After;
    if run == [] {
      IdleIsSafe(limit);
    } else {
      var init, x := run[..|run| - 1], run[|run| - 1];
      AlwaysSafe(limit, init);
      match x
      case Call(c) => CallIsSafe(SystemAfter(limit, init).value, limit, c);
      case Start(c) => StartIsSafe(SystemAfter(limit, init).value, limit, c);
      case Settle(c) => SettleIsSafe(SystemAfter(limit, init).value, limit, c);
    }
  }

  lemma IdleIsSafe(limit: nat)
    ensures Safe(IDLE, limit)
  {
    assert Holders(IDLE) == {};
  }

  lemma WaitersAreWaiting(s: System, limit: nat)
    requires Safe(s, limit) && s.slots.waiters != []
    ensures s.slots.waiters[0] in s.phases && s.phases[s.slots.waiters[0]] == Waiting
  {
    assert s.slots.waiters[0] in s.calls;
    InElements(s.slots.waiters[0], s.calls);
  }

  lemma AllDoneIsIdle(s: System, limit: nat)
    requires Safe(s, limit) && forall c :: c in s.phases ==> s.phases[c] == Done
    ensures s.slots == Slots(0, [])
  {
    assert Holders(s) == {};
    if s.slots.waiters != [] { WaitersAreWaiting(s, limit); }
  }

  /** When every task has settled, no slot is held and nobody is left waiting. */
  lemma NoSlotIsLost(limit: nat, run: seq<Step>)
    requires SystemAfter(limit, run).Some?
    requires forall c :: c in SystemAfter(limit, run).value.phases ==> SystemAfter(limit, run).value.phases[c] == Done
    ensures SystemAfter(limit, run).value.slots == Slots(0, [])
  {
    AlwaysSafe(limit, run);
    AllDoneIsIdle(SystemAfter(limit, run).value, limit);
  }

  /** As long as somebody has not finished, some granted or running task can move. */
  lemma SomebodyCanMove(limit: nat, run: seq<Step>, c: nat)
    requires limit >= 1 && SystemAfter(limit, run).Some?
    requires var s := SystemAfter(limit, run).value; c in s.phases && s.phases[c] != Done
    ensures exists x :: Enabled(SystemAfter(limit, run).value, x) && !x.Call?
  {
    hide Distinct, Elements, SystemAfter;
    var s := SystemAfter(limit, run).value;
    AlwaysSafe(limit, run);
    if s.phases[c] == Waiting {
      assert s.slots.waiters != [] && |Holders(s)| >= 1;
      HolderCanMove(s);
    } else {
      assert c in Holders(s) && |Holders(s) - {c}| == |Holders(s)| - 1;
      HolderCanMove(s);
    }
  }

  lemma HolderCanMove(s: System)
    requires |Holders(s)| >= 1
    ensures exists x :: Enabled(s, x) && !x.Call?
  {
    var held := Holders(s);
    var c :| c in held;
    assert Enabled(s, if s.phases[c] == Granted then Start(c) else Settle(c));
  }
}
