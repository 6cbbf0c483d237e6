/** The effective report expiry of a feed: a token override, else the global value. */
module OracleExpiry {
  import opened Ordering
  import opened Outcomes
  import opened AtLeastOnce
  import opened LogPositions

  datatype ExpiryState = ExpiryState(
    chain: int, feed: string, globalExpiry: int, tokenExpiry: int, reportExpiry: int,
    bootstrapThroughBlock: int, updatedAtBlock: int, updatedAtLogIndex: int, updatedAtTimestamp: int)

  datatype ExpiryError = InvalidGlobal | InvalidToken | BehindBootstrap | OutOfOrder | Conflict

  function Effective(globalExpiry: int, tokenExpiry: int): int {
    if tokenExpiry > 0 then tokenExpiry else globalExpiry
  }

  function Position(s: ExpiryState, at: LogPosition): int {
    EventPosition(s.updatedAtBlock, s.updatedAtLogIndex, at)
  }

  predicate IsEventAlreadyApplied(s: ExpiryState, at: LogPosition) {
    Position(s, at) < 0 || at.block <= s.bootstrapThroughBlock
  }

  function ValidateEventOrder(s: ExpiryState, at: LogPosition): Result<int, ExpiryError> {
    if at.block <= s.bootstrapThroughBlock then Err(BehindBootstrap)
    else if Position(s, at) < 0 then Err(OutOfOrder)
    else Ok(Position(s, at))
  }

  function Bootstrap(chain: int, feed: string, globalExpiry: int, tokenExpiry: int, throughBlock: int): Result<ExpiryState, ExpiryError> {
    if globalExpiry <= 0 then Err(InvalidGlobal)
    else if tokenExpiry < 0 then Err(InvalidToken)
    else Ok(ExpiryState(chain, AsAddress(feed), globalExpiry, tokenExpiry, Effective(globalExpiry, tokenExpiry),
                        throughBlock, throughBlock, -1, 0))
  }

  function ApplyTokenReportExpiry(s: ExpiryState, tokenExpiry: int, at: LogPosition): Result<ExpiryState, ExpiryError> {
    if tokenExpiry < 0 then Err(InvalidToken) else
      var reportExpiry := Effective(s.globalExpiry, tokenExpiry);
      match ValidateEventOrder(s, at)
      case Err(e) => Err(e)
      case Ok(position) =>
        if position == 0 then
          if s.tokenExpiry == tokenExpiry && s.reportExpiry == reportExpiry then Ok(s) else Err(Conflict)
        else
          Ok(s.(tokenExpiry := tokenExpiry, reportExpiry := reportExpiry, updatedAtBlock := at.block,
                updatedAtLogIndex := at.logIndex, updatedAtTimestamp := at.timestamp))
  }

  function ApplyGlobalReportExpiry(s: ExpiryState, globalExpiry: int, at: LogPosition): Result<ExpiryState, ExpiryError> {
    if globalExpiry <= 0 then Err(InvalidGlobal) else
      var reportExpiry := Effective(globalExpiry, s.tokenExpiry);
      match ValidateEventOrder(s, at)
      case Err(e) => Err(e)
      case Ok(position) =>
        if position == 0 then
          if s.globalExpiry == globalExpiry && s.reportExpiry == reportExpiry then Ok(s) else Err(Conflict)
        else
          Ok(s.(globalExpiry := globalExpiry, reportExpiry := reportExpiry, updatedAtBlock := at.block,
                updatedAtLogIndex := at.logIndex, updatedAtTimestamp := at.timestamp))
  }

  // ---------------------------------------------------------------- properties

  ghost predicate Valid(s: ExpiryState) {
    && s.globalExpiry > 0 && s.tokenExpiry >= 0
    && s.reportExpiry == (if s.tokenExpiry == 0 then s.globalExpiry else s.tokenExpiry)
  }

  datatype ExpiryChange = SetToken(value: int) | SetGlobal(value: int)
  datatype ExpiryEntry = ExpiryEntry(at: LogPosition, change: ExpiryChange)

  function Apply(s: ExpiryState, x: ExpiryEntry): Result<ExpiryState, ExpiryError> {
    match x.change
    case SetToken(value) => ApplyTokenReportExpiry(s, value, x.at)
    case SetGlobal(value) => ApplyGlobalReportExpiry(s, value, x.at)
  }

  /** The handler's guard: what the row already reflects is ignored. */
  function Deliver(s: ExpiryState, x: ExpiryEntry): Result<ExpiryState, ExpiryError> {
    if IsEventAlreadyApplied(s, x.at) then Ok(s) else Apply(s, x)
  }

  predicate Acceptable(c: ExpiryChange) {
    match c case SetToken(value) => value >= 0 case SetGlobal(value) => value > 0
  }

  /** Bootstrap and every successful transition keep the effective value right and positive. */
  lemma BootstrapIsValid(chain: int, feed: string, globalExpiry: int, tokenExpiry: int, throughBlock: int)
    ensures
      var r := Bootstrap(chain, feed, globalExpiry, tokenExpiry, throughBlock);
      && (r.Ok? <==> globalExpiry > 0 && tokenExpiry >= 0)
      && (r.Ok? ==>
            && Valid(r.value) && r.value.chain == chain && r.value.feed == AsAddress(feed)
            && r.value.globalExpiry == globalExpiry && r.value.tokenExpiry == tokenExpiry
            && r.value.updatedAtBlock == throughBlock && r.value.updatedAtLogIndex == -1 && r.value.updatedAtTimestamp == 0
            && forall at :: IsNew(r.value, at) <==> at.block > throughBlock)
  {
  }

  /** After the watermark, in chain order, and past the bootstrap. */
  predicate IsNew(s: ExpiryState, at: LogPosition) {
    && at.block > s.bootstrapThroughBlock
    && (at.block > s.updatedAtBlock || (at.block == s.updatedAtBlock && at.logIndex > s.updatedAtLogIndex))
  }

  /** Exactly when a transition succeeds, and what it then stores. */
  lemma ApplyMeans(s: ExpiryState, x: ExpiryEntry)
    requires Valid(s)
    ensures
      var r := Apply(s, x);
      && (r.Ok? <==>
            && (if x.change.SetToken? then x.change.value >= 0 else x.change.value > 0)
            && (IsNew(s, x.at) ||
                  (x.at.block > s.bootstrapThroughBlock && x.at.block == s.updatedAtBlock && x.at.logIndex == s.updatedAtLogIndex
                   && (x.change == SetToken(s.tokenExpiry) || x.change == SetGlobal(s.globalExpiry)))))
      && (r.Ok? ==> Valid(r.value) && r.value == if IsNew(s, x.at) then Stored(s, x) else s)
  {
  }

  /** The row with one change made at its position. */
  function Stored(s: ExpiryState, x: ExpiryEntry): ExpiryState {
    var token := if x.change.SetToken? then x.change.value else s.tokenExpiry;
    var global := if x.change.SetGlobal? then x.change.value else s.globalExpiry;
    s.(tokenExpiry := token, globalExpiry := global, reportExpiry := if token == 0 then global else token,
       updatedAtBlock := x.at.block, updatedAtLogIndex := x.at.logIndex, updatedAtTimestamp := x.at.timestamp)
  }

  /** The row with all changes made that lie past the starting row. */
  function StoredAll(s: ExpiryState, log: seq<ExpiryEntry>): ExpiryState {
    if log == [] then s else
      var t := StoredAll(s, log[..|log| - 1]);
      if IsNew(s, log[|log| - 1].at) then Stored(t, log[|log| - 1]) else t
  }

  /** A log of acceptable changes in increasing order, none exactly at the starting watermark. */
  ghost predicate Log(s: ExpiryState, log: seq<ExpiryEntry>) {
    && (forall i :: 0 <= i < |log| ==> Acceptable(log[i].change) && Position(s, log[i].at) != 0)
    && (forall i, j :: 0 <= i < j < |log| ==> Before(log[i].at, log[j].at))
  }

  /** Where the watermark can be after the log: where it was, or at one of its entries. */
  ghost predicate WatermarkFrom(s: ExpiryState, t: ExpiryState, log: seq<ExpiryEntry>) {
    && t.bootstrapThroughBlock == s.bootstrapThroughBlock
    && ((t.updatedAtBlock == s.updatedAtBlock && t.updatedAtLogIndex == s.updatedAtLogIndex)
        || exists j :: 0 <= j < |log| && t.updatedAtBlock == log[j].at.block && t.updatedAtLogIndex == log[j].at.logIndex && IsNew(s, log[j].at))
  }

  lemma AheadOf(s: ExpiryState, t: ExpiryState, log: seq<ExpiryEntry>, x: ExpiryEntry)
    requires Log(s, log + [x]) && WatermarkFrom(s, t, log)
    ensures Position(t, x.at) != 0
    ensures forall j :: 0 <= j < |log| ==> Before(log[j].at, x.at)
    ensures !IsEventAlreadyApplied(t, x.at) <==> IsNew(s, x.at)
  {
    var all := log + [x];
    assert all[|log|] == x;
    forall j | 0 <= j < |log| ensures Before(log[j].at, x.at) { assert all[j] == log[j]; }
  }

  lemma {:induction false} LogSettles(s: ExpiryState, log: seq<ExpiryEntry>)
    requires Valid(s) && Log(s, log)
    ensures SettledAt(Deliver, s, log)
    ensures Valid(Run(Deliver, s, log).value) && WatermarkFrom(s, Run(Deliver, s, log).value, log)
    ensures Run(Deliver, s, log) == Ok(StoredAll(s, log))
  {
    hide Valid, Apply;
    if log != [] {
      var init, x := log[..|log| - 1], log[|log| - 1];
      assert log == init + [x];
      assert forall i :: 0 <= i < |init| ==> init[i] == log[i];
      LogSettles(s, init);
      var t := Run(Deliver, s, init).value;
      AheadOf(s, t, init, x);
      ApplyMeans(t, x);
      var r := Deliver(t, x);
      assert Run(Deliver, s, log) == r;
      if !IsEventAlreadyApplied(t, x.at) {
        ApplyMeans(r.value, x);
        SameAgain(t, x);
      }
    }
  }

  /** A different change at the very position of the watermark is not dropped as a repeat: it is
      refused as a conflict. */
  lemma ConflictIsRefused(s: ExpiryState, x: ExpiryEntry)
    requires Valid(s) && Acceptable(x.change)
    requires x.at.block == s.updatedAtBlock && x.at.logIndex == s.updatedAtLogIndex && x.at.block > s.bootstrapThroughBlock
    ensures x.change != SetToken(s.tokenExpiry) && x.change != SetGlobal(s.globalExpiry) ==> Deliver(s, x) == Err(Conflict)
  {
  }

  /** A change just made is recognised when it comes again. */
  lemma SameAgain(t: ExpiryState, x: ExpiryEntry)
    requires Valid(t) && Acceptable(x.change) && !IsEventAlreadyApplied(t, x.at) && Position(t, x.at) != 0
    ensures Deliver(t, x).Ok? && Deliver(Deliver(t, x).value, x) == Deliver(t, x)
  {
  }

  /** Any delivery with rewinds never throws and makes exactly the changes past the starting row, each
      once and in order. */
  lemma ExpiryExactlyOnce(s: ExpiryState, log: seq<ExpiryEntry>, indices: seq<nat>)
    requires Valid(s) && Log(s, log) && IsDelivery(indices, |log|) && Reached(indices) == |log|
    ensures Run(Deliver, s, Delivered(log, indices)) == Run(Deliver, s, log) == Ok(StoredAll(s, log)) && Valid(StoredAll(s, log))
  {
    hide Log, Valid, SettledAt, Deliver;
    forall k | 0 <= k <= |log| ensures SettledAt(Deliver, s, log[..k]) {
      assert Log(s, log[..k]) by { LogPrefix(s, log, k); }
      LogSettles(s, log[..k]);
    }
    ExactlyOnce(Deliver, s, log, indices);
    LogSettles(s, log);
  }

  lemma LogPrefix(s: ExpiryState, log: seq<ExpiryEntry>, k: nat)
    requires Log(s, log) && k <= |log|
    ensures Log(s, log[..k])
  {
  }
}
