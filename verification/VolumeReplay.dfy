/** Feeding a run of events to a fresh store. */
module VolumeReplay {
  import opened VolumeRollups
  import opened VolumeRuns
  import opened VolumeFlush
  import opened VolumeFlushRuns
  import S = VolumeStore

  /** Whatever the events, the rollup tables and, in chronological runs, the window rows the
      handlers leave behind are those recomputed from the events. */
  method Replay(events: seq<Event>) returns (store: S.VolumeStore)
    requires forall x :: x in events && x.PoolSwap? ==> S.LowerCase(x.swap.caller)
    ensures fresh(store)
    ensures Agree(store.Now(), AcceptedOf(SwapsOf(events)))
    ensures Chronological(events) ==> WindowsRight(store.windows, events)
  {
    hide Agree, WindowsRight, After, S.LowerCase, S.LowerCaseTables;
    store := new S.VolumeStore();
    assert S.LowerCaseTables(NO_TABLES) by { NothingStored(); }
    assert events[..0] == [];
    for i := 0 to |events|
      invariant fresh(store)
      invariant store.View() == StoreOf(events[..i]) && S.LowerCaseTables(store.Now())
    {
      assert events[..i + 1][..i] == events[..i] && events[..i + 1][i] == events[i];
      match events[i] {
        case PoolSwap(e) => store.ApplyVolumeSnapshots(e);
        case BrokerSwap(chain, timestamp) =>
          ghost var before := store.View();
          store.MoveBrokerCursor(chain, timestamp);
          assert store.Now() == before.tables by { BrokerKeepsTables(before, chain, timestamp); }
      }
    }
    assert events[..|events|] == events;
    FlushingKeepsTables(events);
    TablesAgree(SwapsOf(events));
    if Chronological(events) { WindowsAreRecomputed(events); }
  }

  lemma NothingStored()
    ensures S.LowerCaseTables(NO_TABLES)
  {
  }

  lemma BrokerKeepsTables(s: Store, chain: int, timestamp: nat)
    ensures After(s, BrokerSwap(chain, timestamp)).tables == s.tables
  {
  }
}
