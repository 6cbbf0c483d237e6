/** The active reports of one oracle feed, kept as two parallel lists sorted by reporter. */
module OracleFeed {
  import opened Ordering
  import opened Outcomes
  import opened LogPositions

  datatype FeedState = FeedState(
    chain: int, feed: string, reportExpiry: int, bootstrapThroughBlock: int,
    reporters: seq<string>, timestamps: seq<int>, median: int,
    updatedAtBlock: int, updatedAtLogIndex: int, updatedAtTimestamp: int)

  datatype FeedError =
    LengthMismatch | NonPositiveTimestamp | DuplicateReporter | Conflict | OutOfOrder | ReporterMissing | InvalidExpiry

  type Reports = map<string, int>

  // ---------------------------------------------------------------- lists and maps

  ghost function ValueAt(keys: seq<string>, values: seq<int>, k: string): int
    requires |keys| == |values| && k in keys
    ensures Distinct(keys) ==> forall i :: 0 <= i < |keys| && keys[i] == k ==> ValueAt(keys, values, k) == values[i]
  {
    var i :| 0 <= i < |keys| && keys[i] == k;
    values[i]
  }

  ghost function MapOf(keys: seq<string>, values: seq<int>): (m: Reports)
    requires |keys| == |values|
    ensures m.Keys == Elements(keys)
    ensures Distinct(keys) ==> forall i :: 0 <= i < |keys| ==> m[keys[i]] == values[i]
  {
    map k | k in keys :: ValueAt(keys, values, k)
  }

  function ValuesOf(keys: seq<string>, m: Reports): seq<int>
    requires forall k :: k in keys ==> k in m
  {
    seq(|keys|, i requires 0 <= i < |keys| => m[keys[i]])
  }

  ghost function SortedReporters(m: Reports): (keys: seq<string>)
    ensures Lists(keys, m.Keys)
    ensures forall k :: k in keys ==> k in m
  {
    var keys := SortedList(m.Keys);
    assert forall k :: k in keys ==> k in Elements(keys);
    keys
  }

  ghost function TimestampsOf(m: Reports): seq<int> {
    ValuesOf(SortedReporters(m), m)
  }

  function Lowered(reporters: seq<string>): seq<string> {
    seq(|reporters|, i requires 0 <= i < |reporters| => AsAddress(reporters[i]))
  }

  function UpperMedianTimestamp(timestamps: seq<int>): int {
    if timestamps == [] then 0 else Sort(timestamps, IntLeq)[|timestamps| / 2]
  }

  ghost function Active(s: FeedState): Reports
    requires |s.reporters| == |s.timestamps|
  {
    MapOf(s.reporters, s.timestamps)
  }

  ghost predicate Positive(m: Reports) {
    forall k :: k in m ==> m[k] > 0 && AsAddress(k) == k
  }

  /** Parallel, strictly sorted by reporter, positive, with the median of the timestamps. */
  ghost predicate Valid(s: FeedState) {
    && |s.reporters| == |s.timestamps|
    && Sorted(s.reporters, StringLeq) && Distinct(s.reporters)
    && (forall i :: 0 <= i < |s.reporters| ==> s.timestamps[i] > 0 && AsAddress(s.reporters[i]) == s.reporters[i])
    && s.median == UpperMedianTimestamp(s.timestamps)
    && s.reportExpiry > 0
  }

  // ---------------------------------------------------------------- specification of the transitions

  function Position(s: FeedState, at: LogPosition): int {
    EventPosition(s.updatedAtBlock, s.updatedAtLogIndex, at)
  }

  ghost function Rebuilt(s: FeedState, m: Reports, at: LogPosition): FeedState {
    s.(reporters := SortedReporters(m), timestamps := TimestampsOf(m), median := UpperMedianTimestamp(TimestampsOf(m)),
       updatedAtBlock := at.block, updatedAtLogIndex := at.logIndex, updatedAtTimestamp := at.timestamp)
  }

  ghost function Reported(s: FeedState, reporter: string, timestamp: int, at: LogPosition): Result<FeedState, FeedError>
    requires |s.reporters| == |s.timestamps|
  {
    var reporter := AsAddress(reporter);
    if Position(s, at) == 0 then
      if reporter in Active(s) && Active(s)[reporter] == timestamp then Ok(s) else Err(Conflict)
    else if Position(s, at) < 0 || at.block <= s.bootstrapThroughBlock then Err(OutOfOrder)
    else if timestamp <= 0 then Err(NonPositiveTimestamp)
    else Ok(Rebuilt(s, Active(s)[reporter := timestamp], at))
  }

  ghost function Removed(s: FeedState, reporter: string, at: LogPosition): Result<FeedState, FeedError>
    requires |s.reporters| == |s.timestamps|
  {
    if Position(s, at) == 0 then Ok(s)
    else if Position(s, at) < 0 || at.block <= s.bootstrapThroughBlock then Err(OutOfOrder)
    else if AsAddress(reporter) !in Active(s) then Err(ReporterMissing)
    else Ok(Rebuilt(s, Active(s) - {AsAddress(reporter)}, at))
  }

  // ---------------------------------------------------------------- the code

  lemma FixedPoints(s: seq<string>)
    ensures |Lowered(s)| == |s| && forall i :: 0 <= i < |s| ==> AsAddress(Lowered(s)[i]) == Lowered(s)[i]
  {
  }

  /** The first report of a list prefix that is refused, if any, decides the error. */
  ghost predicate Refused(reporters: seq<string>, timestamps: seq<int>, i: nat, error: FeedError)
    requires i < |reporters| == |timestamps|
  {
    && (forall j :: 0 <= j < i ==> timestamps[j] > 0) && Distinct(Lowered(reporters)[..i])
    && (if timestamps[i] <= 0 then error == NonPositiveTimestamp
        else error == DuplicateReporter && Lowered(reporters)[i] in Lowered(reporters)[..i])
  }

  method CanonicalReports(reporters: seq<string>, timestamps: seq<int>)
    returns (r: Result<(seq<string>, seq<int>), FeedError>)
    ensures |reporters| != |timestamps| ==> r == Err(LengthMismatch)
    ensures |reporters| == |timestamps| && r.Err? ==> exists i :: 0 <= i < |reporters| && Refused(reporters, timestamps, i, r.error)
    ensures r.Ok? <==> |reporters| == |timestamps| && (forall t :: t in timestamps ==> t > 0) && Distinct(Lowered(reporters))
    ensures r.Ok? ==>
      var m := MapOf(Lowered(reporters), timestamps);
      r.value == (SortedReporters(m), TimestampsOf(m)) && Positive(m)
  {
    hide AsAddress, StringLeq, Sort, MapOf, Positive, Lowered, Refused, Elements, Distinct;
    if |reporters| != |timestamps| { return Err(LengthMismatch); }
    var reports: map<string, int> := map[];
    ghost var low := Lowered(reporters);
    LoweredLength(reporters);
    NothingLowered(low);
    for index := 0 to |reporters|
      invariant reports.Keys == Elements(low[..index]) && Distinct(low[..index])
      invariant forall j :: 0 <= j < index ==> low[j] in reports && reports[low[j]] == timestamps[j] && timestamps[j] > 0
    {
      var reporter := AsAddress(reporters[index]);
      var timestamp := timestamps[index];
      InElements(reporter, low[..index]);
      LoweredAt(reporters, index);
      RefusedAt(reporters, timestamps, index);
      if timestamp <= 0 { return Err(NonPositiveTimestamp); }
      if reporter in reports { return Err(DuplicateReporter); }
      assert low[..index + 1] == low[..index] + [reporter];
      DistinctAppend(low[..index], reporter);
      reports := reports[reporter := timestamp];
    }
    assert low[..|low|] == low;
    var keys := Sort(Lowered(reporters), StringLeq);
    CanonicalForm(reporters, timestamps, reports);
    r := Ok((keys, ValuesOf(keys, reports)));
  }

  lemma LoweredAt(reporters: seq<string>, i: nat)
    requires i < |reporters|
    ensures |Lowered(reporters)| == |reporters| && Lowered(reporters)[i] == AsAddress(reporters[i])
  {
  }

  lemma NothingLowered(low: seq<string>)
    ensures Elements(low[..0]) == {} && Distinct(low[..0])
  {
  }

  /** The checks at one index, after all earlier entries have passed them. */
  lemma RefusedAt(reporters: seq<string>, timestamps: seq<int>, i: nat)
    requires i < |reporters| == |timestamps| == |Lowered(reporters)| && Distinct(Lowered(reporters)[..i]) && forall j :: 0 <= j < i ==> timestamps[j] > 0
    ensures timestamps[i] <= 0 ==> Refused(reporters, timestamps, i, NonPositiveTimestamp) && timestamps[i] in timestamps
    ensures timestamps[i] > 0 && Lowered(reporters)[i] in Lowered(reporters)[..i] ==>
      Refused(reporters, timestamps, i, DuplicateReporter) && !Distinct(Lowered(reporters))
  {
    hide Lowered;
  }

  lemma CanonicalForm(reporters: seq<string>, timestamps: seq<int>, reports: Reports)
    requires |reporters| == |timestamps| && Distinct(Lowered(reporters)) && reports.Keys == Elements(Lowered(reporters))
    requires forall j :: 0 <= j < |reporters| ==>
      Lowered(reporters)[j] in reports && reports[Lowered(reporters)[j]] == timestamps[j] && timestamps[j] > 0
    ensures reports == MapOf(Lowered(reporters), timestamps) && Positive(reports)
    ensures Sort(Lowered(reporters), StringLeq) == SortedReporters(reports)
    ensures forall t :: t in timestamps ==> t > 0
  {
    hide AsAddress, StringLeq, Sort;
    var low := Lowered(reporters);
    FixedPoints(reporters);
    SortOfDistinct(low);
    forall k | k in reports ensures reports[k] == MapOf(low, timestamps)[k] && reports[k] > 0 && AsAddress(k) == k {
      assert k in Elements(low);
      var i :| 0 <= i < |low| && low[i] == k;
    }
    ListsUnique(Sort(low, StringLeq), SortedReporters(reports), reports.Keys);
  }

  method RebuildFeedState(s: FeedState, reporters: seq<string>, timestamps: seq<int>, at: LogPosition)
    returns (r: Result<FeedState, FeedError>)
    requires |reporters| == |timestamps|
    ensures r.Ok? <==> (forall t :: t in timestamps ==> t > 0) && Distinct(Lowered(reporters))
    ensures r.Ok? ==> r.value == Rebuilt(s, MapOf(Lowered(reporters), timestamps), at) && Positive(MapOf(Lowered(reporters), timestamps))
  {
    var canonical := CanonicalReports(reporters, timestamps);
    match canonical {
      case Err(e) => r := Err(e);
      case Ok(lists) =>
        r := Ok(s.(reporters := lists.0, timestamps := lists.1, median := UpperMedianTimestamp(lists.1),
                   updatedAtBlock := at.block, updatedAtLogIndex := at.logIndex, updatedAtTimestamp := at.timestamp));
    }
  }

  method BootstrapOracleFeedState(chain: int, feed: string, reporters: seq<string>, timestamps: seq<int>, reportExpiry: int, throughBlock: int)
    returns (r: Result<FeedState, FeedError>)
    ensures r.Ok? <==> reportExpiry > 0 && |reporters| == |timestamps| && (forall t :: t in timestamps ==> t > 0) && Distinct(Lowered(reporters))
    ensures r.Ok? ==>
      && Valid(r.value) && Active(r.value) == MapOf(Lowered(reporters), timestamps)
      && r.value.bootstrapThroughBlock == throughBlock && r.value.reportExpiry == reportExpiry
      && r.value.updatedAtBlock == throughBlock && r.value.updatedAtLogIndex == -1
  {
    hide Valid, Rebuilt, Positive, MapOf, Lowered;
    if reportExpiry <= 0 { return Err(InvalidExpiry); }
    if |reporters| != |timestamps| { return Err(LengthMismatch); }
    var blank := FeedState(chain, AsAddress(feed), reportExpiry, throughBlock, [], [], 0, 0, 0, 0);
    r := RebuildFeedState(blank, reporters, timestamps, LogPosition(throughBlock, -1, 0));
    if r.Ok? {
      LoweredLength(reporters);
      RebuiltIs(blank, MapOf(Lowered(reporters), timestamps), LogPosition(throughBlock, -1, 0));
    }
  }

  lemma LoweredLength(reporters: seq<string>)
    ensures |Lowered(reporters)| == |reporters|
  {
  }

  /** A row rebuilt from a map of reports is valid and holds exactly that map. */
  lemma RebuiltIs(s: FeedState, m: Reports, at: LogPosition)
    requires Positive(m) && s.reportExpiry > 0
    ensures
      var t := Rebuilt(s, m, at);
      && Valid(t) && Active(t) == m && Position(t, at) == 0
      && t.bootstrapThroughBlock == s.bootstrapThroughBlock && t.reportExpiry == s.reportExpiry
      && t.updatedAtBlock == at.block && t.updatedAtLogIndex == at.logIndex && t.updatedAtTimestamp == at.timestamp
  {
    hide StringLeq, AsAddress, UpperMedianTimestamp;
    var t := Rebuilt(s, m, at);
    assert Lists(t.reporters, m.Keys);
    forall i | 0 <= i < |t.reporters| ensures t.reporters[i] in m {}
    forall k | k in m ensures Active(t)[k] == m[k] {
      assert k in Elements(t.reporters);
      var i :| 0 <= i < |t.reporters| && t.reporters[i] == k;
    }
  }

  /** The reports as a map, copied entry by entry. */
  method ReportsOf(s: FeedState) returns (reports: map<string, int>)
    requires Valid(s)
    ensures reports == Active(s) && Positive(reports)
  {
    hide StringLeq, AsAddress, UpperMedianTimestamp;
    reports := map[];
    for i := 0 to |s.reporters|
      invariant reports.Keys == Elements(s.reporters[..i])
      invariant forall j :: 0 <= j < i ==> s.reporters[j] in reports && reports[s.reporters[j]] == s.timestamps[j]
    {
      reports := reports[s.reporters[i] := s.timestamps[i]];
      assert s.reporters[..i + 1] == s.reporters[..i] + [s.reporters[i]];
    }
    assert s.reporters[..|s.reporters|] == s.reporters;
  }

  method ApplyOracleReport(s: FeedState, reporter: string, timestamp: int, at: LogPosition)
    returns (r: Result<FeedState, FeedError>)
    requires Valid(s)
    ensures r == Reported(s, reporter, timestamp, at)
  {
    hide Rebuilt, MapOf, Valid;
    assert |s.reporters| == |s.timestamps| && Distinct(s.reporters) by { ValidLists(s); }
    var position := Position(s, at);
    var address := AsAddress(reporter);
    if position == 0 {
      var index :| address in s.reporters ==> 0 <= index < |s.reporters| && s.reporters[index] == address;
      ActiveMember(s, address);
      if address in s.reporters && s.timestamps[index] == timestamp { return Ok(s); }
      return Err(Conflict);
    }
    if position < 0 || at.block <= s.bootstrapThroughBlock { return Err(OutOfOrder); }
    if timestamp <= 0 { return Err(NonPositiveTimestamp); }
    var reports := ReportsOf(s);
    reports := reports[address := timestamp];
    var keys := if address in s.reporters then s.reporters else s.reporters + [address];
    KeysWith(s, address, timestamp, keys);
    r := RebuildFeedState(s, keys, ValuesOf(keys, reports), at);
    KeysAreLowered(keys, reports);
  }

  lemma ValidLists(s: FeedState)
    requires Valid(s)
    ensures |s.reporters| == |s.timestamps| && Distinct(s.reporters) && s.reportExpiry > 0
  {
  }

  lemma ActiveMember(s: FeedState, reporter: string)
    requires Valid(s)
    ensures reporter in Active(s) <==> reporter in s.reporters
    ensures forall i :: 0 <= i < |s.reporters| && s.reporters[i] == reporter ==> Active(s)[reporter] == s.timestamps[i]
  {
    hide StringLeq, AsAddress, UpperMedianTimestamp;
  }

  lemma KeysWith(s: FeedState, address: string, timestamp: int, keys: seq<string>)
    requires Valid(s) && AsAddress(address) == address && timestamp > 0
    requires keys == if address in s.reporters then s.reporters else s.reporters + [address]
    ensures Distinct(keys) && Elements(keys) == Active(s)[address := timestamp].Keys && Positive(Active(s)[address := timestamp])
  {
    hide StringLeq, AsAddress, UpperMedianTimestamp;
    DistinctAppend(s.reporters, address);
    forall k | k in Active(s) ensures Active(s)[k] > 0 && AsAddress(k) == k {
      var i :| 0 <= i < |s.reporters| && s.reporters[i] == k;
    }
  }

  /** Lists whose keys are already canonical are read back as the map they came from. */
  lemma KeysAreLowered(keys: seq<string>, m: Reports)
    requires Distinct(keys) && Elements(keys) == m.Keys && Positive(m)
    ensures forall k :: k in keys ==> k in m
    ensures Lowered(keys) == keys && |ValuesOf(keys, m)| == |keys| && MapOf(keys, ValuesOf(keys, m)) == m
    ensures forall t :: t in ValuesOf(keys, m) ==> t > 0
  {
    hide AsAddress;
    forall k ensures k in keys <==> k in m { assert k in keys <==> k in Elements(keys); }
    var values := ValuesOf(keys, m);
    forall k | k in m ensures MapOf(keys, values)[k] == m[k] {
      var i :| 0 <= i < |keys| && keys[i] == k;
    }
  }

  method ApplyOracleReportRemoval(s: FeedState, reporter: string, at: LogPosition)
    returns (r: Result<FeedState, FeedError>)
    requires Valid(s)
    ensures r == Removed(s, reporter, at)
  {
    hide Rebuilt, MapOf, Valid;
    ValidLists(s);
    var position := Position(s, at);
    if position == 0 { return Ok(s); }
    if position < 0 || at.block <= s.bootstrapThroughBlock { return Err(OutOfOrder); }
    var address := AsAddress(reporter);
    var reports := ReportsOf(s);
    if address !in reports { return Err(ReporterMissing); }
    reports := reports - {address};
    ActiveMember(s, address);
    var keys := Without(s.reporters, address);
    WithoutMembers(s.reporters, address);
    MapKeys(s);
    KeysAreLowered(keys, reports);
    r := RebuildFeedState(s, keys, ValuesOf(keys, reports), at);
  }

  lemma MapKeys(s: FeedState)
    requires Valid(s)
    ensures Active(s).Keys == Elements(s.reporters)
  {
  }

  function ApplyOracleFeedExpiry(s: FeedState, reportExpiry: int, at: LogPosition): Result<FeedState, FeedError> {
    if reportExpiry <= 0 then Ok(s)
    else if Position(s, at) == 0 then if s.reportExpiry == reportExpiry then Ok(s) else Err(Conflict)
    else if Position(s, at) < 0 then Err(OutOfOrder)
    else Ok(s.(reportExpiry := reportExpiry, updatedAtBlock := at.block, updatedAtLogIndex := at.logIndex, updatedAtTimestamp := at.timestamp))
  }
}
