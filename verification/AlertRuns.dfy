/** What an alert state says about the polls that led to it. */
module AlertRuns {
  import opened Arithmetic
  import opened DeviationThresholds
  import opened Outcomes
  import opened TradingCalendar
  import opened AlertState

  /** The last reopening is a Sunday 23:00 UTC, the end of a weekend, less than a week ago. */
  lemma LastReopenIsReopening(now: int)
    ensures
      var reopen := LastFxReopenAtOrBefore(now);
      && now - WEEK_SECONDS < reopen <= now && !InWeekend(reopen) && InWeekend(reopen - 1)
      && (reopen - ANCHOR_FRI_2100) % WEEK_SECONDS == WEEKEND_SECONDS
  {
    hide UtcDay, InWeekend;
    SinceSunday(now);
    var r, q := (now - ANCHOR_FRI_2100) % WEEK_SECONDS, (now - ANCHOR_FRI_2100) / WEEK_SECONDS;
    var reopen := LastFxReopenAtOrBefore(now);
    var k := if r >= WEEKEND_SECONDS then q else q - 1;
    assert reopen == WeekStart(k) + WEEKEND_SECONDS;
    WeekendOfWeek(k, reopen);
    WeekendOfWeek(k, reopen - 1);
    Remainder(k);
  }

  /** Seconds since Sunday midnight, in terms of those since Friday 21:00. */
  lemma SinceSunday(now: int)
    ensures
      var r := (now - ANCHOR_FRI_2100) % WEEK_SECONDS;
      UtcDay(now) * 86400 + now % 86400 == if r < 97200 then r + 507600 else r - 97200
  {
    hide UtcDay;
    DayInWeek(now);
    var r := (now - ANCHOR_FRI_2100) % WEEK_SECONDS;
    var d, e := (75600 + r) / 86400, (75600 + r) % 86400;
    assert 0 <= d <= 7 && 75600 + r == d * 86400 + e && (d < 2 <==> r < 97200);
    assert UtcDay(now) == if d < 2 then 5 + d else d - 2;
  }

  lemma Remainder(k: int)
    ensures (WeekStart(k) + WEEKEND_SECONDS - ANCHOR_FRI_2100) % WEEK_SECONDS == WEEKEND_SECONDS
  {
  }

  /** The polls of one pool since it appeared, under a clock that never runs backwards. */
  ghost predicate Polls(h: seq<Poll>) {
    forall i, j :: 0 <= i < j < |h| ==> h[i].now <= h[j].now
  }

  function SnapshotOf(h: seq<Poll>): Option<Snapshot> {
    if h == [] then None else Some(Current(SnapshotOf(h[..|h| - 1]), h[|h| - 1]))
  }

  // ---------------------------------------------------------------- what one poll says

  /** A critical signal: outside the FX weekend, an active breach whose ratio is missing, or above
      tolerance with the ratio or the peak of the breach above the critical magnitude. */
  predicate SignalAt(p: Poll) {
    && p.breachStartedAt.Some? && p.breachStartedAt.value > 0 && !(p.isFxPair && InWeekend(p.now))
    && (p.ratio.None? ||
          (p.ratio.value > 1010000 &&
             (p.ratio.value > 1050000 ||
                (p.openPeak > 0 && p.openPeak * 100 > 105 * (if p.entryThreshold > 0 then p.entryThreshold else 10000)))))
  }

  function SignalOf(p: Poll): Option<State> {
    if SignalAt(p) then Some(if p.ratio.None? then RatioUnavailableCritical else Critical) else None
  }

  /** What the classification makes of the fields of a poll, in every case. */
  lemma ClassifiedMeans(p: Poll)
    ensures
      var c, start := Classify(p), OrElse(p.breachStartedAt, 0);
      var above, closed := p.ratio.Some? && p.ratio.value > 1010000, p.isFxPair && InWeekend(p.now);
      && c.signal == SignalOf(p)
      && (c.state == Undetermined <==> p.breachStartedAt.None?)
      && (c.state != Undetermined ==>
            && (c.state == FxPaused <==> closed && (start > 0 || above))
            && (c.state == RatioUnavailableWarning <==> !closed && start > 0 && p.ratio.None?)
            && (c.state == Warning <==> !closed && above)
            && (c.state == InBand <==> !above && (start > 0 ==> !closed && p.ratio.Some?)))
      && c.breachStartedAt == (if start > 0 && c.state != InBand && c.state != Undetermined then Some(start) else None)
  {
    hide IsFxWeekend, InWeekend;
    WeekendDefinitionsAgree(p.now);
  }

  // ---------------------------------------------------------------- critical states

  /** Every poll from `i` on carried a critical signal, which was first noted at poll `i`, or
      before the first poll, when the persisted start of the breach is taken. */
  ghost predicate SignalSince(h: seq<Poll>, enteredAt: int, i: nat) {
    && i < |h| && (forall j :: i <= j < |h| ==> SignalAt(h[j]))
    && (enteredAt == h[i].now || (i == 0 && enteredAt <= h[0].now))
  }

  ghost predicate Follows(h: seq<Poll>, s: Snapshot)
    requires h != []
  {
    var now, c := h[|h| - 1].now, Classify(h[|h| - 1]);
    && s.signal == c.signal && s.breachStartedAt == c.breachStartedAt
    && (s.signal.Some? <==> s.signalEnteredAt.Some?)
    && (s.signal.Some? ==> s.signalEnteredAt.value <= now && exists i: nat :: SignalSince(h, s.signalEnteredAt.value, i))
    && s.enteredAt <= now
    && (IsCritical(s.state) <==> CriticalStateCanFire(c, s.signalEnteredAt, now))
    && (IsCritical(s.state) ==> s.signal == Some(s.state))
    && (!IsCritical(s.state) ==> s.state == c.state)
  }

  lemma ClassifiedShape(p: Poll)
    ensures
      var c := Classify(p);
      && !IsCritical(c.state) && c.signal == SignalOf(p) && (c.signal.Some? <==> SignalAt(p))
      && (c.signal.Some? ==> IsCritical(c.signal.value) && IsWarning(c.state) && c.breachStartedAt.Some? && c.breachStartedAt.value > 0)
  {
    hide IsFxWeekend, PeakIsCritical, InWeekend;
    ClassifiedMeans(p);
  }

  lemma SignalSinceAppend(h: seq<Poll>, p: Poll, enteredAt: int)
    requires SignalAt(p) && exists i: nat :: SignalSince(h, enteredAt, i)
    ensures exists i: nat :: SignalSince(h + [p], enteredAt, i)
  {
    hide SignalAt;
    var i: nat :| SignalSince(h, enteredAt, i);
    assert SignalSince(h + [p], enteredAt, i);
  }

  lemma FirstPoll(p: Poll)
    ensures Follows([p], Current(None, p))
  {
    hide IsFxWeekend, PeakIsCritical, LastFxReopenAtOrBefore, Classify, SignalAt, SignalOf;
    ClassifiedShape(p);
    LastReopenIsReopening(p.now);
    if SignalAt(p) { assert SignalSince([p], Current(None, p).signalEnteredAt.value, 0); }
  }

  lemma NextPoll(h: seq<Poll>, s: Snapshot, p: Poll)
    requires h != [] && Follows(h, s) && h[|h| - 1].now <= p.now
    ensures Follows(h + [p], Current(Some(s), p))
  {
    hide Classify, SignalAt, SignalOf, InitialEnteredAt, SignalSince, TransitionReason;
    var t := Current(Some(s), p);
    ClassifiedShape(p);
    ClassifiedShape(h[|h| - 1]);
    assert (h + [p])[|h|] == p;
    if SignalAt(p) {
      if s.signal.Some? { SignalSinceAppend2(h, p, s); }
      if t.signalEnteredAt == Some(p.now) { SignalNow(h, p); }
    }
  }

  lemma SignalSinceAppend2(h: seq<Poll>, p: Poll, s: Snapshot)
    requires h != [] && Follows(h, s) && s.signal.Some? && SignalAt(p)
    ensures exists i: nat :: SignalSince(h + [p], s.signalEnteredAt.value, i)
  {
    SignalSinceAppend(h, p, s.signalEnteredAt.value);
  }

  lemma SignalNow(h: seq<Poll>, p: Poll)
    requires SignalAt(p)
    ensures exists i: nat :: SignalSince(h + [p], p.now, i)
  {
    hide SignalAt;
    assert SignalSince(h + [p], p.now, |h|);
  }

  lemma {:induction false} SnapshotFollows(h: seq<Poll>)
    requires Polls(h) && h != []
    ensures Follows(h, SnapshotOf(h).value)
  {
    hide Follows, Current;
    var init, p := h[..|h| - 1], h[|h| - 1];
    assert h == init + [p];
    if init == [] {
      FirstPoll(p);
    } else {
      SnapshotFollows(init);
      NextPoll(init, SnapshotOf(init).value, p);
    }
  }

  /** Critical means exactly: an active breach older than the firing time, and a critical signal
      noted more than the pending time ago; it was in every poll since. Entry times are never in
      the future. */
  lemma CriticalMeans(h: seq<Poll>)
    requires Polls(h) && h != []
    ensures
      var s, p := SnapshotOf(h).value, h[|h| - 1];
      && s.enteredAt <= p.now && (s.signalEnteredAt.Some? ==> s.signalEnteredAt.value <= p.now)
      && (IsCritical(s.state) <==>
            && SignalAt(p) && p.breachStartedAt.Some? && p.breachStartedAt.value > 0
            && p.now - p.breachStartedAt.value > 3660
            && s.signalEnteredAt.Some? && p.now - s.signalEnteredAt.value > 60)
      && (IsCritical(s.state) ==> exists i: nat :: SignalSince(h, s.signalEnteredAt.value, i))
  {
    hide Classify, SignalAt, SignalOf, SignalSince;
    SnapshotFollows(h);
    StartIsPolled(h[|h| - 1]);
    ClassifiedShape(h[|h| - 1]);
  }

  lemma StartIsPolled(p: Poll)
    ensures Classify(p).breachStartedAt.Some? ==> Classify(p).breachStartedAt == p.breachStartedAt
  {
    hide IsFxWeekend, PeakIsCritical;
  }

  /** A signal of one kind in every poll from `i` on was noted no later than poll `i`. */
  lemma {:induction false} SteadySignalNoted(h: seq<Poll>, i: nat, kind: State)
    requires Polls(h) && i < |h| && forall j :: i <= j < |h| ==> SignalOf(h[j]) == Some(kind)
    ensures SnapshotOf(h).value.signalEnteredAt.Some? && SnapshotOf(h).value.signalEnteredAt.value <= h[i].now
  {
    hide Classify, SignalAt, SignalOf, SignalSince;
    SnapshotFollows(h);
    ClassifiedShape(h[|h| - 1]);
    if i < |h| - 1 {
      ClassifiedShape(h[|h| - 2]);
      var init := h[..|h| - 1];
      SteadySignalNoted(init, i, kind);
      SnapshotFollows(init);
      assert init[|h| - 2] == h[|h| - 2];
    }
  }

  /** So it fires: after more than the pending time, once the breach is old enough. */
  lemma SteadySignalFires(h: seq<Poll>, i: nat, kind: State)
    requires Polls(h) && i < |h| && forall j :: i <= j < |h| ==> SignalOf(h[j]) == Some(kind)
    requires h[|h| - 1].now - h[i].now > 60
    requires h[|h| - 1].breachStartedAt.Some? && h[|h| - 1].now - h[|h| - 1].breachStartedAt.value > 3660
    ensures SnapshotOf(h).value.state == kind
  {
    hide Classify, SignalAt, SignalOf, SignalSince;
    SteadySignalNoted(h, i, kind);
    CriticalMeans(h);
    SnapshotFollows(h);
    ClassifiedShape(h[|h| - 1]);
    StartIsPolled(h[|h| - 1]);
  }

  /** Outside market hours no alert of an FX pair is active. */
  lemma NoAlertOnWeekend(h: seq<Poll>)
    requires Polls(h) && h != [] && h[|h| - 1].isFxPair && InWeekend(h[|h| - 1].now)
    ensures SnapshotOf(h).value.state in {InBand, FxPaused, Undetermined}
  {
    hide SignalSince;
    WeekendDefinitionsAgree(h[|h| - 1].now);
    SnapshotFollows(h);
  }

  /** Once critical, it stays critical while some critical signal and the same breach start
      persist, even if the kind of signal changes. */
  lemma CriticalPersists(h: seq<Poll>, p: Poll)
    requires Polls(h + [p]) && h != [] && IsCritical(SnapshotOf(h).value.state)
    requires SignalAt(p) && p.breachStartedAt == SnapshotOf(h).value.breachStartedAt
    ensures IsCritical(SnapshotOf(h + [p]).value.state)
    ensures SnapshotOf(h + [p]).value.signalEnteredAt == SnapshotOf(h).value.signalEnteredAt
  {
    hide Classify, SignalAt, SignalOf, SignalSince;
    assert (h + [p])[..|h|] == h && (h + [p])[|h|] == p && (h + [p])[|h| - 1] == h[|h| - 1];
    assert Polls(h) by { forall i, j | 0 <= i < j < |h| ensures h[i].now <= h[j].now { assert (h + [p])[i].now <= (h + [p])[j].now; } }
    SnapshotFollows(h);
    ClassifiedShape(p);
    StartIsPolled(p);
  }

  // ---------------------------------------------------------------- entry times

  function StateAt(h: seq<Poll>, i: nat): State
    requires i < |h|
  {
    SnapshotOf(h[..i + 1]).value.state
  }

  function LastState(h: seq<Poll>): State
    requires h != []
  {
    SnapshotOf(h).value.state
  }

  /** A warning and the critical state it may grow into are one family; other states stand alone. */
  function Family(s: State): State {
    if s == Critical then Warning else if s == RatioUnavailableCritical then RatioUnavailableWarning else s
  }

  /** When a first poll's state is taken to have begun: now, but for a warning in an active breach
      at the persisted start of the breach, for FX pairs not before the market reopened. */
  function FirstEntryTime(p: Poll): int {
    if p.ratio.Some? && p.ratio.value > 1010000 && p.breachStartedAt.Some? && p.breachStartedAt.value > 0 && !(p.isFxPair && InWeekend(p.now)) then
      var start := Min(p.breachStartedAt.value, p.now);
      if p.isFxPair then Max(start, LastFxReopenAtOrBefore(p.now)) else start
    else p.now
  }

  lemma FirstEntryMeans(p: Poll)
    ensures InitialEnteredAt(Classify(p), p.isFxPair, p.now) == FirstEntryTime(p)
  {
    hide Classify, LastFxReopenAtOrBefore, InWeekend, SignalOf;
    ClassifiedMeans(p);
  }

  /** The time of poll `i`; for the first poll the persisted start of the breach may count. */
  function EntryTime(h: seq<Poll>, i: nat): int
    requires i < |h|
  {
    if i == 0 then FirstEntryTime(h[0]) else h[i].now
  }

  /** The entry time is that of poll `i`, and the family has not been left since. */
  ghost predicate EnteredAt(h: seq<Poll>, i: nat) {
    && i < |h| && SnapshotOf(h).value.enteredAt == EntryTime(h, i)
    && forall j :: i <= j < |h| ==> Family(StateAt(h, j)) == Family(LastState(h))
  }

  /** Where an entry time is kept, and what the state then is. */
  lemma KeptEntry(s: Snapshot, p: Poll)
    ensures
      var t, c := Current(Some(s), p), Classify(p);
      var kept := s.state == c.state || (IsCritical(s.state) && Some(s.state) == c.signal);
      && t.enteredAt == (if kept then s.enteredAt else p.now)
      && (kept ==> Family(t.state) == Family(s.state))
      && (t.state == s.state ==> kept)
      && (IsWarning(t.state) ==> c.state == t.state)
  {
    hide IsFxWeekend, PeakIsCritical, CriticalStateCanFire, CriticalSignalEnteredAt;
  }

  lemma LastStep(h: seq<Poll>, p: Poll)
    ensures SnapshotOf(h + [p]) == Some(Current(SnapshotOf(h), p))
    ensures forall i :: 0 <= i < |h| ==> StateAt(h + [p], i) == StateAt(h, i) && EntryTime(h + [p], i) == EntryTime(h, i)
    ensures StateAt(h + [p], |h|) == LastState(h + [p])
  {
    hide Current, InitialEnteredAt;
    assert (h + [p])[..|h|] == h;
    assert (h + [p])[..|h| + 1] == h + [p];
    forall i | 0 <= i < |h| ensures StateAt(h + [p], i) == StateAt(h, i) { assert (h + [p])[..i + 1] == h[..i + 1]; }
  }

  /** Since the entry time of its last state a pool has stayed in one family of states. */
  lemma {:induction false} EntryMeans(h: seq<Poll>)
    requires h != []
    ensures exists i: nat :: EnteredAt(h, i)
  {
    hide Current, InitialEnteredAt, Classify, StateAt, LastState, EntryTime, Family;
    var init, p := h[..|h| - 1], h[|h| - 1];
    assert h == init + [p];
    LastStep(init, p);
    if init == [] {
      FirstEntry(p);
    } else {
      EntryMeans(init);
      var i: nat :| EnteredAt(init, i);
      EntryStep(init, p, i);
    }
  }

  lemma FirstEntry(p: Poll)
    ensures EnteredAt([p], 0)
  {
    hide InitialEnteredAt, Classify, Family, FirstEntryTime;
    FirstEntryMeans(p);
    assert [p][..0] == [] && [p][..1] == [p];
    assert StateAt([p], 0) == LastState([p]);
    assert SnapshotOf([p]) == Some(Current(None, p));
  }

  lemma EntryStep(h: seq<Poll>, p: Poll, i: nat)
    requires h != [] && EnteredAt(h, i)
    ensures EnteredAt(h + [p], i) || EnteredAt(h + [p], |h|)
  {
    hide Current, InitialEnteredAt, Classify, StateAt, Family;
    LastStep(h, p);
    KeptEntry(SnapshotOf(h).value, p);
  }

  /** Where the last stretch of polls in one and the same state begins. */
  function Stretch(h: seq<Poll>): (w: nat)
    requires h != []
    ensures w < |h|
  {
    if |h| > 1 && LastState(h[..|h| - 1]) == LastState(h) then Stretch(h[..|h| - 1]) else |h| - 1
  }

  lemma {:induction false} StretchIs(h: seq<Poll>)
    requires h != []
    ensures forall i :: Stretch(h) <= i < |h| ==> StateAt(h, i) == LastState(h)
    ensures Stretch(h) > 0 ==> StateAt(h, Stretch(h) - 1) != LastState(h)
    ensures SnapshotOf(h).value.enteredAt == SnapshotOf(h[..Stretch(h) + 1]).value.enteredAt
  {
    hide Current, InitialEnteredAt, Classify, StateAt, LastState, EntryTime, Family;
    var init, p := h[..|h| - 1], h[|h| - 1];
    assert h == init + [p];
    LastStep(init, p);
    if init != [] {
      LastIsLast(init);
      if LastState(init) == LastState(h) {
        StretchIs(init);
        StretchKeeps(init, p);
        assert h[..Stretch(h) + 1] == init[..Stretch(h) + 1];
      } else {
        assert h[..|h|] == h;
      }
    } else {
      assert h[..1] == h;
    }
  }

  lemma LastIsLast(h: seq<Poll>)
    requires h != []
    ensures StateAt(h, |h| - 1) == LastState(h)
  {
    assert h[..|h|] == h;
  }

  lemma StretchKeeps(h: seq<Poll>, p: Poll)
    requires h != [] && LastState(h + [p]) == LastState(h)
    ensures SnapshotOf(h + [p]).value.enteredAt == SnapshotOf(h).value.enteredAt
  {
    hide Current, Classify, Family;
    LastStep(h, p);
    KeptEntry(SnapshotOf(h).value, p);
  }

  /** At poll `w` a critical state gives way to a warning while its own signal stays. */
  predicate GivesWay(h: seq<Poll>, w: nat)
    requires w < |h|
  {
    w > 0 && IsCritical(StateAt(h, w - 1)) && IsWarning(StateAt(h, w)) && SignalOf(h[w]) == Some(StateAt(h, w - 1))
  }

  /** A warning's entry time is the start of its own stretch exactly if it did not take over
      from a critical state whose signal stayed (or inherited this very second). */
  lemma WarningEntryExactly(h: seq<Poll>)
    requires h != [] && IsWarning(LastState(h))
    ensures
      var w := Stretch(h);
      SnapshotOf(h).value.enteredAt == EntryTime(h, w) <==>
        !GivesWay(h, w) || SnapshotOf(h[..w]).value.enteredAt == h[w].now
  {
    hide Current, InitialEnteredAt, Classify, Family;
    StretchIs(h);
    var w := Stretch(h);
    var before, p := h[..w], h[w];
    assert h[..w + 1] == before + [p];
    LastStep(before, p);
    if w == 0 {
      FirstEntry(p);
    } else {
      KeptEntry(SnapshotOf(before).value, p);
      ClassifiedShape(p);
      assert StateAt(h, w - 1) == SnapshotOf(before).value.state;
      assert StateAt(h, w) == SnapshotOf(before + [p]).value.state;
    }
  }

  /** Under a clock that advances with every poll the second case is void. */
  lemma WarningEntryByClock(h: seq<Poll>)
    requires h != [] && IsWarning(LastState(h)) && forall i, j :: 0 <= i < j < |h| ==> h[i].now < h[j].now
    ensures SnapshotOf(h).value.enteredAt == EntryTime(h, Stretch(h)) <==> !GivesWay(h, Stretch(h))
  {
    hide Current, InitialEnteredAt, Classify, StateAt, Family;
    WarningEntryExactly(h);
    var w := Stretch(h);
    if w > 0 {
      var before := h[..w];
      assert Polls(before);
      SnapshotFollows(before);
    }
  }

  /** A warning of thirty seconds that is taken to have lasted since the breach before it. */
  lemma InheritedEntry()
    ensures
      var h := [Poll(10000, false, Some(1000), Some(2000000), 0, 0), Poll(10030, false, Some(10020), Some(2000000), 0, 0)];
      var p := Poll(10060, false, Some(10020), Some(1000000), 0, 0);
      && Polls(h + [p]) && StateAt(h, 0) == Critical && LastState(h) == Warning && GivesWay(h, 1)
      && SnapshotOf(h).value.enteredAt == 1000
      && Records(SnapshotOf(h), Current(SnapshotOf(h), p), p.now)
  {
    var p, q := Poll(10000, false, Some(1000), Some(2000000), 0, 0), Poll(10030, false, Some(10020), Some(2000000), 0, 0);
    LastStep([], p);
    LastStep([p], q);
    LastIsLast([p]);
    LastIsLast([p, q]);
    assert [] + [p] == [p] && [p] + [q] == [p, q];
    assert SnapshotOf([p]) == Some(Snapshot(Critical, Some(1000), 1000, Some(Critical), Some(1000)));
  }

  /** Why a state that could have alerted was left. */
  function ReasonOf(from: State, to: State): Reason {
    match to
    case InBand => Recovered
    case FxPaused => FxSuppressed
    case Undetermined => if Family(from) == Warning then StateChanged else RatioRestored
    case Critical => if from == RatioUnavailableCritical then RatioRestored else Escalated
    case RatioUnavailableCritical => if from == Critical then RatioUnavailable else Escalated
    case Warning => if from == RatioUnavailableWarning then RatioRestored else Deescalated
    case RatioUnavailableWarning => if from == Warning then RatioUnavailable else Deescalated
  }

  /** A transition out of `h`'s last state at poll `p`. A critical state was one by its definition;
      a warning's family had been entered long enough ago, and the warning itself had lasted as
      long unless it took over from a critical state. */
  ghost predicate Explained(h: seq<Poll>, p: Poll, t: Transition) {
    && h != [] && t.from == LastState(h) != t.to == SnapshotOf(h + [p]).value.state && t.endedAt == p.now
    && t.reason == ReasonOf(t.from, t.to) && t.durationSeconds == (if t.breachStartedAt < p.now then p.now - t.breachStartedAt else 0)
    && Some(t.breachStartedAt) == (if Classify(h[|h| - 1]).breachStartedAt.Some? then Classify(h[|h| - 1]).breachStartedAt
                                   else if Classify(p).breachStartedAt.Some? then Classify(p).breachStartedAt else Some(SnapshotOf(h).value.enteredAt))
    && (IsCritical(t.from) || IsWarning(t.from))
    && (IsCritical(t.from) ==>
          var s, last := SnapshotOf(h).value, h[|h| - 1];
          && s.signalEnteredAt.Some? && last.now - s.signalEnteredAt.value > 60
          && exists i: nat :: SignalSince(h, s.signalEnteredAt.value, i))
    && (IsWarning(t.from) ==>
          && (exists i: nat :: EnteredAt(h, i) && p.now - EntryTime(h, i) >= 900)
          && (!GivesWay(h, Stretch(h)) ==> p.now - EntryTime(h, Stretch(h)) >= 900))
  }

  /** Every recorded transition leaves a state whose alert could have fired. */
  lemma RecordedTransitions(h: seq<Poll>, p: Poll)
    requires Polls(h) && Records(SnapshotOf(h), Current(SnapshotOf(h), p), p.now)
    ensures Explained(h, p, BuildTransition(SnapshotOf(h).value, Current(SnapshotOf(h), p), p.now))
  {
    hide Current, Classify, SignalSince, EnteredAt, StateAt, EntryTime, Stretch, InitialEnteredAt, CriticalStateCanFire, GivesWay;
    LastStep(h, p);
    CriticalMeans(h);
    SnapshotFollows(h);
    CurrentStart(SnapshotOf(h), p);
    EntryMeans(h);
    EntryOf(h);
    if IsWarning(LastState(h)) { WarningEntryExactly(h); }
  }

  lemma CurrentStart(previous: Option<Snapshot>, p: Poll)
    ensures Current(previous, p).breachStartedAt == Classify(p).breachStartedAt
  {
    hide Classify, CriticalStateCanFire, CriticalSignalEnteredAt, InitialEnteredAt;
  }

  /** Recorded is exactly every change out of a critical state, or out of a warning entered at least
      15 minutes ago; only one that ends with no data at all is not, unless the ratio was missing. */
  lemma RecordedExactly(h: seq<Poll>, p: Poll)
    requires Polls(h) && h != []
    ensures
      var s, from, to := SnapshotOf(h).value, LastState(h), SnapshotOf(h + [p]).value.state;
      Records(SnapshotOf(h), Current(SnapshotOf(h), p), p.now) <==>
        && from != to && (to == Undetermined ==> Family(from) == RatioUnavailableWarning)
        && (from == Critical || from == RatioUnavailableCritical ||
              ((from == Warning || from == RatioUnavailableWarning) && p.now - s.enteredAt >= 900))
  {
    hide Current, Classify;
    LastStep(h, p);
  }

  lemma EntryOf(h: seq<Poll>)
    ensures forall i: nat :: EnteredAt(h, i) ==> i < |h| && EntryTime(h, i) == SnapshotOf(h).value.enteredAt
  {
    hide EntryTime, StateAt, Family;
  }

  // ---------------------------------------------------------------- the tracker over whole runs

  datatype Step = Observed(id: string, poll: Poll) | Pruned(active: set<string>)

  datatype Maps = Maps(previous: map<string, Snapshot>, recent: map<string, Transition>)

  ghost function After(m: Maps, x: Step): Maps {
    match x
    case Observed(id, p) =>
      var previous := Lookup(m.previous, id);
      var current := Current(previous, p);
      Maps(m.previous[id := current],
           if Records(previous, current, p.now)
           then Unexpired(m.recent, p.now)[id := BuildTransition(previous.value, current, p.now)]
           else Unexpired(m.recent, p.now))
    case Pruned(active) =>
      Maps(map id | id in m.previous && id in active :: m.previous[id], map id | id in m.recent && id in active :: m.recent[id])
  }

  ghost function MapsOf(h: seq<Step>): Maps {
    if h == [] then Maps(map[], map[]) else After(MapsOf(h[..|h| - 1]), h[|h| - 1])
  }

  /** Polls and prunes one after another on a fresh tracker. */
  method Replay(steps: seq<Step>) returns (tracker: AlertTracker)
    ensures fresh(tracker) && Maps(tracker.previousStates, tracker.recentTransitions) == MapsOf(steps)
  {
    hide Current, Records, BuildTransition;
    tracker := new AlertTracker();
    for i := 0 to |steps|
      invariant fresh(tracker) && Maps(tracker.previousStates, tracker.recentTransitions) == MapsOf(steps[..i])
    {
      assert steps[..i + 1][..i] == steps[..i] && steps[..i + 1][i] == steps[i];
      match steps[i]
      case Observed(id, p) => var state, recorded, active := tracker.ObserveDeviationAlertState(id, p);
      case Pruned(active) => tracker.PruneDeviationAlertStates(active);
    }
    assert steps[..|steps|] == steps;
  }

  /** The polls of a pool since the last prune that dropped it. */
  function PollsOf(h: seq<Step>, id: string): seq<Poll> {
    if h == [] then [] else
      match h[|h| - 1]
      case Observed(i, p) => PollsOf(h[..|h| - 1], id) + (if i == id then [p] else [])
      case Pruned(active) => if id in active then PollsOf(h[..|h| - 1], id) else []
  }

  /** Time never runs backwards over all polls. */
  ghost predicate Clock(h: seq<Step>) {
    forall i, j :: 0 <= i < j < |h| && h[i].Observed? && h[j].Observed? ==> h[i].poll.now <= h[j].poll.now
  }

  /** The tracker keeps for each pool exactly the snapshot of its own polls: other pools'
      polls and prunes that keep it do not matter. */
  lemma {:induction false} SnapshotsAreOwn(h: seq<Step>, id: string)
    ensures Lookup(MapsOf(h).previous, id) == SnapshotOf(PollsOf(h, id))
  {
    hide Current, Records;
    if h != [] {
      var init, x := h[..|h| - 1], h[|h| - 1];
      SnapshotsAreOwn(init, id);
      if x.Observed? && x.id == id {
        var polls := PollsOf(init, id);
        assert (polls + [x.poll])[..|polls|] == polls;
      } else if x.Observed? {
        assert PollsOf(h, id) == PollsOf(init, id);
      }
    }
  }

  lemma {:induction false} PollsAreOrdered(h: seq<Step>, id: string)
    requires Clock(h)
    ensures Polls(PollsOf(h, id))
    ensures forall p :: p in PollsOf(h, id) ==> exists i :: 0 <= i < |h| && h[i] == Observed(id, p)
  {
    if h != [] {
      var init := h[..|h| - 1];
      assert forall i :: 0 <= i < |init| ==> init[i] == h[i];
      PollsAreOrdered(init, id);
      var polls := PollsOf(init, id);
      forall i | 0 <= i < |polls| ensures exists k :: 0 <= k < |init| && init[k] == Observed(id, polls[i]) { assert polls[i] in polls; }
    }
  }

  /** `t` was recorded for the pool at step `n`. */
  ghost predicate RecordedAt(h: seq<Step>, id: string, n: nat, t: Transition) {
    && n < |h| && h[n].Observed? && h[n].id == id
    && var q, p := SnapshotOf(PollsOf(h[..n], id)), h[n].poll;
       Records(q, Current(q, p), p.now) && t == BuildTransition(q.value, Current(q, p), p.now)
  }

  lemma {:induction false} RecentWereRecorded(h: seq<Step>, id: string)
    requires id in MapsOf(h).recent
    ensures exists n: nat :: RecordedAt(h, id, n, MapsOf(h).recent[id])
  {
    hide Current, Records, BuildTransition;
    var init, x, t := h[..|h| - 1], h[|h| - 1], MapsOf(h).recent[id];
    SnapshotsAreOwn(init, id);
    if RecordedAt(h, id, |init|, t) { return; }
    RecentWereRecorded(init, id);
    var n: nat :| RecordedAt(init, id, n, MapsOf(init).recent[id]);
    assert h[..n] == init[..n];
    assert RecordedAt(h, id, n, t);
  }

  /** So a transition on display is explained by the polls of its own pool before it. */
  lemma RecentMeans(h: seq<Step>, id: string)
    requires Clock(h) && id in MapsOf(h).recent
    ensures exists n: nat ::
      n < |h| && h[n].Observed? && h[n].id == id && Explained(PollsOf(h[..n], id), h[n].poll, MapsOf(h).recent[id])
  {
    hide Current, Records, BuildTransition, Explained;
    RecentWereRecorded(h, id);
    var n: nat :| RecordedAt(h, id, n, MapsOf(h).recent[id]);
    assert Clock(h[..n]);
    PollsAreOrdered(h[..n], id);
    RecordedTransitions(PollsOf(h[..n], id), h[n].poll);
  }

  /** After a poll, a pool has at most one recorded transition; it ended at most three minutes
      ago and not later than now. */
  lemma {:induction false} RecentAreRecent(h: seq<Step>)
    requires Clock(h)
    ensures forall id, i :: id in MapsOf(h).recent && 0 <= i < |h| && h[i].Observed? && LastObserved(h, i) ==>
      MapsOf(h).recent[id].endedAt <= h[i].poll.now <= MapsOf(h).recent[id].endedAt + 180
    ensures MapsOf(h).recent.Keys != {} ==> exists i :: 0 <= i < |h| && h[i].Observed? && LastObserved(h, i)
  {
    hide Current, Records, BuildTransition;
    if h != [] {
      var init, x := h[..|h| - 1], h[|h| - 1];
      assert forall i :: 0 <= i < |init| ==> init[i] == h[i];
      RecentAreRecent(init);
      if x.Observed? {
        assert LastObserved(h, |init|);
        EarlierEnds(init, h, x);
        RecentAfterPoll(MapsOf(init), x.id, x.poll);
      } else {
        forall i | 0 <= i < |init| ensures LastObserved(h, i) <==> LastObserved(init, i) {}
      }
    }
  }

  ghost predicate LastObserved(h: seq<Step>, i: int) {
    0 <= i && forall j :: i < j < |h| ==> h[j].Pruned?
  }

  lemma RecentAfterPoll(m: Maps, id: string, p: Poll)
    requires forall j :: j in m.recent ==> m.recent[j].endedAt <= p.now
    ensures
      var recent := After(m, Observed(id, p)).recent;
      forall j :: j in recent ==> recent[j].endedAt <= p.now <= recent[j].endedAt + 180
  {
    hide Current;
  }

  /** What was recorded before ended before the new poll. */
  lemma EarlierEnds(init: seq<Step>, h: seq<Step>, x: Step)
    requires x.Observed? && h == init + [x] && Clock(h)
    requires forall id, i :: id in MapsOf(init).recent && 0 <= i < |init| && init[i].Observed? && LastObserved(init, i) ==>
      MapsOf(init).recent[id].endedAt <= init[i].poll.now
    requires MapsOf(init).recent.Keys != {} ==> exists i :: 0 <= i < |init| && init[i].Observed? && LastObserved(init, i)
    ensures forall id :: id in MapsOf(init).recent ==> MapsOf(init).recent[id].endedAt <= x.poll.now
  {
    forall id | id in MapsOf(init).recent ensures MapsOf(init).recent[id].endedAt <= x.poll.now {
      assert id in MapsOf(init).recent.Keys;
      var i :| 0 <= i < |init| && init[i].Observed? && LastObserved(init, i);
      assert h[i].poll.now <= h[|init|].poll.now;
    }
  }
}
