/** The deviation alert state of each pool, observed poll by poll. */
module AlertState {
  import opened Arithmetic
  import opened DeviationThresholds
  import opened Outcomes
  import opened TradingCalendar

  const DEVIATION_WARNING_PENDING_SECONDS := 900
  const DEVIATION_CRITICAL_FIRING_SECONDS := 3660
  const DEVIATION_CRITICAL_PENDING_SECONDS := 60
  const DEVIATION_CRITICAL_THRESHOLD_SECONDS := DEVIATION_CRITICAL_FIRING_SECONDS - DEVIATION_CRITICAL_PENDING_SECONDS
  const DEVIATION_TRANSITION_ACTIVE_SECONDS := 180

  datatype State = InBand | Warning | Critical | RatioUnavailableWarning | RatioUnavailableCritical | FxPaused | Undetermined

  /** One poll of a pool: an unparsable start and an absent or negative ratio are None; a ratio
      is counted in millionths. */
  datatype Poll = Poll(now: int, isFxPair: bool, breachStartedAt: Option<int>, ratio: Option<nat>, openPeak: int, entryThreshold: int)

  datatype Classified = Classified(state: State, breachStartedAt: Option<int>, signal: Option<State>)

  datatype Snapshot = Snapshot(state: State, breachStartedAt: Option<int>, enteredAt: int, signal: Option<State>, signalEnteredAt: Option<int>)

  datatype Reason =
    BreachStarted | Recovered | Escalated | Deescalated | RatioUnavailable | RatioRestored | FxSuppressed | FxReopened | StateChanged

  datatype Transition = Transition(from: State, to: State, reason: Reason, breachStartedAt: int, endedAt: int, durationSeconds: int)

  function Classify(p: Poll): Classified {
    if p.breachStartedAt.None? then Classified(Undetermined, None, None)
    else
      var start := p.breachStartedAt.value;
      var breachActive := start > 0;
      var aboveTolerance := p.ratio.Some? && p.ratio.value > TOLERANCE_MILLIONTHS;
      if (breachActive || aboveTolerance) && p.isFxPair && IsFxWeekend(p.now) then
        Classified(FxPaused, if breachActive then Some(start) else None, None)
      else if p.ratio.None? then
        if !breachActive then Classified(InBand, None, None)
        else Classified(RatioUnavailableWarning, Some(start), Some(RatioUnavailableCritical))
      else if !aboveTolerance then Classified(InBand, None, None)
      else
        var critical := p.ratio.value > CRITICAL_MILLIONTHS || PeakIsCritical(p.openPeak, p.entryThreshold);
        Classified(Warning, if breachActive then Some(start) else None, if critical && breachActive then Some(Critical) else None)
  }

  predicate IsCritical(s: State) { s == Critical || s == RatioUnavailableCritical }
  predicate IsWarning(s: State) { s == Warning || s == RatioUnavailableWarning }
  predicate IsUnavailable(s: State) { s == RatioUnavailableWarning || s == RatioUnavailableCritical }

  function TransitionReason(from: State, to: State): Reason {
    if to == InBand then Recovered
    else if to == FxPaused then FxSuppressed
    else if from == FxPaused then FxReopened
    else if IsWarning(from) && IsCritical(to) then Escalated
    else if IsCritical(from) && IsWarning(to) then Deescalated
    else if IsUnavailable(to) && !IsUnavailable(from) then RatioUnavailable
    else if IsUnavailable(from) && !IsUnavailable(to) then RatioRestored
    else if from == InBand then BreachStarted
    else StateChanged
  }

  predicate AlertCouldHaveFired(s: Snapshot, now: int) {
    if IsWarning(s.state) then now - s.enteredAt >= DEVIATION_WARNING_PENDING_SECONDS else IsCritical(s.state)
  }

  function CriticalSignalEnteredAt(previous: Option<Snapshot>, c: Classified, enteredAt: int, now: int): Option<int> {
    if c.signal.None? then None
    else if previous.Some? && previous.value.signal == c.signal then Some(OrElse(previous.value.signalEnteredAt, now))
    else if previous.Some? && IsCritical(previous.value.state) then Some(OrElse(previous.value.signalEnteredAt, previous.value.enteredAt))
    else if previous.None? && c.state == Warning then Some(enteredAt)
    else Some(now)
  }

  predicate CriticalStateCanFire(c: Classified, signalEnteredAt: Option<int>, now: int) {
    if c.signal.None? || c.breachStartedAt.None? || c.breachStartedAt.value == 0 then false
    else now - Max(OrElse(signalEnteredAt, now), c.breachStartedAt.value + DEVIATION_CRITICAL_THRESHOLD_SECONDS) > DEVIATION_CRITICAL_PENDING_SECONDS
  }

  function LastFxReopenAtOrBefore(now: int): int {
    var sinceWeekStart := UtcDay(now) * 86400 + now % 86400;
    var sundayReopen := 23 * 3600;
    now - (if sinceWeekStart >= sundayReopen then sinceWeekStart - sundayReopen else sinceWeekStart + 7 * 86400 - sundayReopen)
  }

  function InitialEnteredAt(c: Classified, isFxPair: bool, now: int): int {
    if c.state == Warning && c.breachStartedAt.Some? && c.breachStartedAt.value != 0 then
      var persistedStart := Min(c.breachStartedAt.value, now);
      if isFxPair then Max(persistedStart, LastFxReopenAtOrBefore(now)) else persistedStart
    else now
  }

  function BuildCurrentSnapshot(previous: Option<Snapshot>, c: Classified, isFxPair: bool, now: int): Snapshot {
    var enteredAt :=
      if previous.Some? then
        if previous.value.state == c.state || (IsCritical(previous.value.state) && Some(previous.value.state) == c.signal)
        then previous.value.enteredAt else now
      else InitialEnteredAt(c, isFxPair, now);
    var signalEnteredAt := CriticalSignalEnteredAt(previous, c, enteredAt, now);
    var state := if CriticalStateCanFire(c, signalEnteredAt, now) && c.signal.Some? then c.signal.value else c.state;
    Snapshot(state, c.breachStartedAt, enteredAt, c.signal, signalEnteredAt)
  }

  predicate ShouldRecordTransition(previous: Snapshot, current: Snapshot, now: int) {
    match TransitionReason(previous.state, current.state)
    case BreachStarted => false
    case FxReopened => false
    case StateChanged => false
    case Escalated => AlertCouldHaveFired(previous, now) && AlertCouldHaveFired(current, now)
    case _ => AlertCouldHaveFired(previous, now)
  }

  function BuildTransition(previous: Snapshot, current: Snapshot, now: int): Transition {
    var start := OrElse(previous.breachStartedAt, OrElse(current.breachStartedAt, previous.enteredAt));
    Transition(previous.state, current.state, TransitionReason(previous.state, current.state), start, now, Max(0, now - start))
  }

  /** Recorded on this poll: a change of state out of one whose alert could have fired. */
  predicate Records(previous: Option<Snapshot>, current: Snapshot, now: int) {
    previous.Some? && previous.value.state != current.state && ShouldRecordTransition(previous.value, current, now)
  }

  function Current(previous: Option<Snapshot>, p: Poll): Snapshot {
    BuildCurrentSnapshot(previous, Classify(p), p.isFxPair, p.now)
  }

  /** Transitions still inside their display time. */
  ghost function Unexpired(transitions: map<string, Transition>, now: int): map<string, Transition> {
    map id | id in transitions && now - transitions[id].endedAt <= DEVIATION_TRANSITION_ACTIVE_SECONDS :: transitions[id]
  }

  class AlertTracker {
    var previousStates: map<string, Snapshot>
    var recentTransitions: map<string, Transition>

    constructor ()
      ensures previousStates == map[] && recentTransitions == map[]
    {
      previousStates, recentTransitions := map[], map[];
    }

    method PruneRecentTransitions(now: int)
      modifies this`recentTransitions
      ensures recentTransitions == Unexpired(old(recentTransitions), now)
    {
      var todo := recentTransitions.Keys;
      while todo != {}
        invariant todo <= recentTransitions.Keys <= old(recentTransitions).Keys
        invariant forall id :: id in recentTransitions ==> recentTransitions[id] == old(recentTransitions)[id]
        invariant forall id :: id in old(recentTransitions) && id !in todo ==>
          (id in recentTransitions <==> now - old(recentTransitions)[id].endedAt <= DEVIATION_TRANSITION_ACTIVE_SECONDS)
        decreases |todo|
      {
        var id :| id in todo;
        todo := todo - {id};
        if now - recentTransitions[id].endedAt > DEVIATION_TRANSITION_ACTIVE_SECONDS {
          recentTransitions := recentTransitions - {id};
        }
      }
    }

    method ObserveDeviationAlertState(id: string, p: Poll)
      returns (state: State, newTransitions: seq<Transition>, activeTransitions: seq<Transition>)
      modifies this
      ensures
        var previous := Lookup(old(previousStates), id);
        var current := Current(previous, p);
        && state == current.state && previousStates == old(previousStates)[id := current]
        && newTransitions == (if Records(previous, current, p.now) then [BuildTransition(previous.value, current, p.now)] else [])
        && recentTransitions ==
             (if newTransitions == [] then Unexpired(old(recentTransitions), p.now)
              else Unexpired(old(recentTransitions), p.now)[id := newTransitions[0]])
        && activeTransitions == (if id in recentTransitions then [recentTransitions[id]] else [])
    {
      hide BuildCurrentSnapshot, Classify, ShouldRecordTransition, TransitionReason;
      PruneRecentTransitions(p.now);
      var previous := Lookup(previousStates, id);
      var current := BuildCurrentSnapshot(previous, Classify(p), p.isFxPair, p.now);
      newTransitions := [];
      if previous.Some? && previous.value.state != current.state && ShouldRecordTransition(previous.value, current, p.now) {
        var transition := BuildTransition(previous.value, current, p.now);
        recentTransitions := recentTransitions[id := transition];
        newTransitions := [transition];
      }
      previousStates := previousStates[id := current];
      activeTransitions :=
        if id in recentTransitions && p.now - recentTransitions[id].endedAt <= DEVIATION_TRANSITION_ACTIVE_SECONDS
        then [recentTransitions[id]] else [];
      state := current.state;
    }

    method PruneDeviationAlertStates(activePoolIds: set<string>)
      modifies this
      ensures previousStates == map id | id in old(previousStates) && id in activePoolIds :: old(previousStates)[id]
      ensures recentTransitions == map id | id in old(recentTransitions) && id in activePoolIds :: old(recentTransitions)[id]
    {
      previousStates := map id | id in previousStates && id in activePoolIds :: previousStates[id];
      recentTransitions := map id | id in recentTransitions && id in activePoolIds :: recentTransitions[id];
    }
  }
}
