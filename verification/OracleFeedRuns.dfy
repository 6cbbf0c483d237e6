/** What the feed row means: it is a map of reports, and re-delivery never changes it. */
module OracleFeedRuns {
  import opened Ordering
  import opened Outcomes
  import opened AtLeastOnce
  import opened LogPositions
  import opened OracleFeed

  // ---------------------------------------------------------------- the row as a map

  /** A report is accepted exactly when it is new and positive (or an exact repeat at the
      watermark), and then it is a map update. */
  lemma ReportIsUpdate(s: FeedState, reporter: string, timestamp: int, at: LogPosition)
    requires Valid(s)
    ensures
      var r, address := Reported(s, reporter, timestamp, at), AsAddress(reporter);
      && (Position(s, at) == 0 ==> if address in Active(s) && Active(s)[address] == timestamp then r == Ok(s) else r.Err?)
      && (Position(s, at) != 0 ==> (r.Ok? <==> Position(s, at) > 0 && at.block > s.bootstrapThroughBlock && timestamp > 0))
      && (Position(s, at) != 0 && r.Ok? ==>
            Valid(r.value) && Active(r.value) == Active(s)[address := timestamp] && Moved(s, r.value, at))
  {
    hide Rebuilt, MapOf, Valid;
    ValidLists(s);
    var address := AsAddress(reporter);
    if Position(s, at) > 0 && at.block > s.bootstrapThroughBlock && timestamp > 0 {
      KeysWith(s, address, timestamp, if address in s.reporters then s.reporters else s.reporters + [address]);
      RebuiltIs(s, Active(s)[address := timestamp], at);
    }
  }

  /** A removal is accepted exactly for an active reporter, and then removes just that one. */
  lemma RemovalIsRemoval(s: FeedState, reporter: string, at: LogPosition)
    requires Valid(s)
    ensures
      var r, address := Removed(s, reporter, at), AsAddress(reporter);
      && (Position(s, at) == 0 ==> r == Ok(s))
      && (Position(s, at) != 0 ==> (r.Ok? <==> Position(s, at) > 0 && at.block > s.bootstrapThroughBlock && address in Active(s)))
      && (Position(s, at) != 0 && r.Ok? ==>
            Valid(r.value) && Active(r.value) == Active(s) - {address} && Moved(s, r.value, at))
  {
    hide Rebuilt, MapOf, Valid;
    ValidLists(s);
    ActivePositive(s);
    if Position(s, at) > 0 && at.block > s.bootstrapThroughBlock && AsAddress(reporter) in Active(s) {
      RebuiltIs(s, Active(s) - {AsAddress(reporter)}, at);
    }
  }

  ghost predicate Moved(s: FeedState, t: FeedState, at: LogPosition) {
    && t.reportExpiry == s.reportExpiry && t.bootstrapThroughBlock == s.bootstrapThroughBlock
    && t.updatedAtBlock == at.block && t.updatedAtLogIndex == at.logIndex && t.updatedAtTimestamp == at.timestamp
  }

  lemma ActivePositive(s: FeedState)
    requires Valid(s)
    ensures Positive(Active(s))
  {
    hide StringLeq, AsAddress, UpperMedianTimestamp;
    forall k | k in Active(s) ensures Active(s)[k] > 0 && AsAddress(k) == k {
      var i :| 0 <= i < |s.reporters| && s.reporters[i] == k;
    }
  }

  /** The stored lists and the median depend only on the map of reports. */
  lemma ListsFollowFromMap(s: FeedState, t: FeedState)
    requires Valid(s) && Valid(t) && Active(s) == Active(t)
    ensures s.reporters == t.reporters && s.timestamps == t.timestamps && s.median == t.median
  {
    hide StringLeq, AsAddress, UpperMedianTimestamp;
    MapKeys(s);
    MapKeys(t);
    ListsUnique(s.reporters, t.reporters, Active(s).Keys);
    forall i | 0 <= i < |s.timestamps| ensures s.timestamps[i] == t.timestamps[i] {
      assert Active(s)[s.reporters[i]] == s.timestamps[i] && Active(t)[t.reporters[i]] == t.timestamps[i];
    }
  }

  // ---------------------------------------------------------------- the median

  /** The upper median is the element at index floor(n/2) of the only sorted arrangement. */
  lemma MedianIs(timestamps: seq<int>, sorted: seq<int>)
    requires Sorted(sorted, IntLeq) && multiset(sorted) == multiset(timestamps)
    ensures |sorted| == |timestamps|
    ensures UpperMedianTimestamp(timestamps) == if timestamps == [] then 0 else sorted[|timestamps| / 2]
  {
    IntOrder();
    SortSorts(timestamps, IntLeq);
    SortedUnique(sorted, Sort(timestamps, IntLeq), IntLeq);
    assert |multiset(sorted)| == |sorted| && |multiset(timestamps)| == |timestamps|;
  }

  lemma SortedArrangement(timestamps: seq<int>, latest: int)
    requires forall t :: t in timestamps ==> t <= latest
    ensures
      var a := Sort(timestamps, IntLeq);
      && multiset(a) == multiset(timestamps) && |a| == |timestamps|
      && (forall i, j :: 0 <= i < j < |a| ==> a[i] <= a[j]) && (forall i :: 0 <= i < |a| ==> a[i] <= latest)
      && (forall i :: 0 <= i < |a| ==> a[i] in timestamps)
      && UpperMedianTimestamp(timestamps) == if timestamps == [] then 0 else a[|timestamps| / 2]
  {
    IntOrder();
    SortSorts(timestamps, IntLeq);
    var a := Sort(timestamps, IntLeq);
    forall i | 0 <= i < |a| ensures a[i] in timestamps { assert a[i] in multiset(timestamps); }
  }

  /** One more timestamp, at least as recent as all the others, does not lower the median. */
  lemma LatestAddedRaises(timestamps: seq<int>, latest: int)
    requires forall t :: t in timestamps ==> 0 <= t <= latest
    requires timestamps == [] ==> latest >= 0
    ensures UpperMedianTimestamp(timestamps) <= UpperMedianTimestamp(timestamps + [latest])
  {
    hide Sort, UpperMedianTimestamp;
    var a := Sort(timestamps, IntLeq);
    SortedArrangement(timestamps, latest);
    assert Sorted(a + [latest], IntLeq);
    MedianIs(timestamps + [latest], a + [latest]);
  }

  /** Replacing one timestamp by one at least as recent as all the others does not lower it either. */
  lemma LatestReplacedRaises(timestamps: seq<int>, i: nat, latest: int)
    requires i < |timestamps| && forall t :: t in timestamps ==> t <= latest
    ensures UpperMedianTimestamp(timestamps) <= UpperMedianTimestamp(timestamps[i := latest])
  {
    hide Sort, UpperMedianTimestamp;
    var a := Sort(timestamps, IntLeq);
    SortedArrangement(timestamps, latest);
    assert timestamps[i] in multiset(a);
    var j :| 0 <= j < |a| && a[j] == timestamps[i];
    var b := a[..j] + a[j + 1..] + [latest];
    assert Sorted(b, IntLeq);
    SwappedMultiset(timestamps, i, a, j, latest);
    MedianIs(timestamps[i := latest], b);
  }

  lemma SwappedMultiset(s: seq<int>, i: nat, a: seq<int>, j: nat, latest: int)
    requires i < |s| && j < |a| && s[i] == a[j] && multiset(s) == multiset(a)
    ensures multiset(a[..j] + a[j + 1..] + [latest]) == multiset(s[i := latest])
  {
    assert a == a[..j] + [a[j]] + a[j + 1..];
    assert s == s[..i] + [s[i]] + s[i + 1..];
    assert s[i := latest] == s[..i] + [latest] + s[i + 1..];
  }

  lemma TimestampsMultiset(keys: seq<string>, m: Reports)
    requires Distinct(keys) && Elements(keys) == m.Keys
    ensures forall k :: k in keys ==> k in m
    ensures multiset(ValuesOf(keys, m)) == multiset(TimestampsOf(m))
    decreases |keys|
  {
    forall k | k in keys ensures k in m { assert k in Elements(keys); }
    var sorted := SortedReporters(m);
    DistinctMultiset(keys);
    DistinctMultiset(sorted);
    SameValues(keys, sorted, m);
  }

  lemma {:induction false} SameValues(a: seq<string>, b: seq<string>, m: Reports)
    requires multiset(a) == multiset(b) && (forall k :: k in a ==> k in m) && (forall k :: k in b ==> k in m)
    ensures multiset(ValuesOf(a, m)) == multiset(ValuesOf(b, m))
    decreases |a|
  {
    if a == [] {
      assert |multiset(b)| == |b|;
    } else {
      var init, k := a[..|a| - 1], a[|a| - 1];
      assert a == init + [k];
      assert k in multiset(b);
      var i :| 0 <= i < |b| && b[i] == k;
      var rest := b[..i] + b[i + 1..];
      hide ValuesOf;
      Pulled(b, i);
      assert multiset(init) == multiset(a) - multiset{k};
      SameValues(init, rest, m);
      ValuesSnoc(a, m);
      PulledValues(b, i, m);
    }
  }

  lemma ValuesSnoc(a: seq<string>, m: Reports)
    requires a != [] && forall k :: k in a ==> k in m
    ensures forall k :: k in a[..|a| - 1] ==> k in m
    ensures ValuesOf(a, m) == ValuesOf(a[..|a| - 1], m) + [m[a[|a| - 1]]]
  {
  }

  lemma Pulled(b: seq<string>, i: nat)
    requires i < |b|
    ensures multiset(b[..i] + b[i + 1..]) == multiset(b) - multiset{b[i]}
    ensures forall k :: k in b[..i] + b[i + 1..] ==> k in b
  {
    assert b == b[..i] + [b[i]] + b[i + 1..];
  }

  lemma PulledValues(b: seq<string>, i: nat, m: Reports)
    requires i < |b| && forall k :: k in b ==> k in m
    ensures forall k :: k in b[..i] + b[i + 1..] ==> k in m
    ensures multiset(ValuesOf(b, m)) == multiset(ValuesOf(b[..i] + b[i + 1..], m)) + multiset{m[b[i]]}
  {
    Pulled(b, i);
    var values, rest := ValuesOf(b, m), ValuesOf(b[..i] + b[i + 1..], m);
    assert values == values[..i] + [m[b[i]]] + values[i + 1..];
    assert rest == values[..i] + values[i + 1..];
  }

  /** A report at least as recent as all current ones never lowers the feed's median. */
  lemma NewestReportNeverLowersMedian(s: FeedState, reporter: string, timestamp: int, at: LogPosition)
    requires Valid(s) && forall t :: t in s.timestamps ==> t <= timestamp
    ensures Reported(s, reporter, timestamp, at).Ok? ==> s.median <= Reported(s, reporter, timestamp, at).value.median
  {
    hide StringLeq, AsAddress, UpperMedianTimestamp, Rebuilt, MapOf;
    if Position(s, at) != 0 && Reported(s, reporter, timestamp, at).Ok? {
      var address := AsAddress(reporter);
      var m := Active(s)[address := timestamp];
      var keys := if address in s.reporters then s.reporters else s.reporters + [address];
      assert forall i :: 0 <= i < |s.timestamps| ==> s.timestamps[i] in s.timestamps;
      KeysWith(s, address, timestamp, keys);
      TimestampsMultiset(keys, m);
      SameMedian(ValuesOf(keys, m), TimestampsOf(m));
      MedianOfRebuilt(s, m, at);
      NewValues(s, address, timestamp, keys);
      if address in s.reporters {
        var i :| 0 <= i < |s.reporters| && s.reporters[i] == address;
        LatestReplacedRaises(s.timestamps, i, timestamp);
      } else {
        LatestAddedRaises(s.timestamps, timestamp);
      }
    }
  }

  lemma MedianOfRebuilt(s: FeedState, m: Reports, at: LogPosition)
    ensures Rebuilt(s, m, at).median == UpperMedianTimestamp(TimestampsOf(m))
  {
  }

  lemma SameMedian(a: seq<int>, b: seq<int>)
    requires multiset(a) == multiset(b)
    ensures UpperMedianTimestamp(a) == UpperMedianTimestamp(b)
  {
    IntOrder();
    SortSorts(a, IntLeq);
    MedianIs(b, Sort(a, IntLeq));
  }

  lemma NewValues(s: FeedState, address: string, timestamp: int, keys: seq<string>)
    requires Valid(s) && keys == if address in s.reporters then s.reporters else s.reporters + [address]
    ensures forall k :: k in keys ==> k in Active(s)[address := timestamp]
    ensures address !in s.reporters ==> ValuesOf(keys, Active(s)[address := timestamp]) == s.timestamps + [timestamp]
    ensures forall i :: 0 <= i < |s.reporters| && s.reporters[i] == address ==>
      ValuesOf(keys, Active(s)[address := timestamp]) == s.timestamps[i := timestamp]
  {
    hide StringLeq, AsAddress, UpperMedianTimestamp;
  }

  // ---------------------------------------------------------------- delivery at least once

  datatype FeedChange = Report(reporter: string, timestamp: int) | Remove(reporter: string) | Expiry(value: int) | Median
  datatype FeedEntry = FeedEntry(at: LogPosition, change: FeedChange)

  predicate IsEventBehindWatermark(s: FeedState, at: LogPosition) { Position(s, at) < 0 }
  predicate IsEventAtOrBehindWatermark(s: FeedState, at: LogPosition) { Position(s, at) <= 0 }
  predicate IsEventAlreadyApplied(s: FeedState, at: LogPosition) {
    IsEventBehindWatermark(s, at) || at.block <= s.bootstrapThroughBlock
  }

  /** A median log advances the watermark alone, and is claimed only ahead of it. */
  function ClaimMedianUpdate(s: FeedState, at: LogPosition): (FeedState, bool) {
    if IsEventAtOrBehindWatermark(s, at) then (s, true)
    else (s.(updatedAtBlock := at.block, updatedAtLogIndex := at.logIndex, updatedAtTimestamp := at.timestamp), false)
  }

  /** The handlers' guards in front of the transitions; a row with unequal lists, which no
      transition makes, is left alone only to keep the function total. */
  ghost function Deliver(s: FeedState, x: FeedEntry): Result<FeedState, FeedError> {
    match x.change
    case Report(reporter, timestamp) =>
      if IsEventAlreadyApplied(s, x.at) || |s.reporters| != |s.timestamps| then Ok(s) else Reported(s, reporter, timestamp, x.at)
    case Remove(reporter) =>
      if IsEventAlreadyApplied(s, x.at) || |s.reporters| != |s.timestamps| then Ok(s) else Removed(s, reporter, x.at)
    case Expiry(value) =>
      if value <= 0 || IsEventBehindWatermark(s, x.at) then Ok(s) else ApplyOracleFeedExpiry(s, value, x.at)
    case Median => Ok(ClaimMedianUpdate(s, x.at).0)
  }

  /** What the chain guarantees of a log entry the row does not reflect yet: reports are positive, and
      removals name an active reporter. */
  ghost predicate Acceptable(s: FeedState, x: FeedEntry)
    requires Valid(s)
  {
    IsEventAlreadyApplied(s, x.at) ||
    match x.change
    case Report(_, timestamp) => timestamp > 0
    case Remove(reporter) => AsAddress(reporter) in Active(s)
    case _ => true
  }

  ghost predicate IsLog(s: FeedState, log: seq<FeedEntry>) {
    && (forall i :: 0 <= i < |log| ==> Position(s, log[i].at) != 0)
    && (forall i, j :: 0 <= i < j < |log| ==> Before(log[i].at, log[j].at))
    && (forall i :: 0 <= i < |log| ==>
          var r := Run(Deliver, s, log[..i]);
          r.Ok? && Valid(r.value) ==> Acceptable(r.value, log[i]))
  }

  /** What a row says: the reports, the expiry in force and how far it has come. */
  datatype View = View(reports: Reports, expiry: int, block: int, logIndex: int, timestamp: int)

  ghost function ViewOf(s: FeedState): View
    requires |s.reporters| == |s.timestamps|
  {
    View(Active(s), s.reportExpiry, s.updatedAtBlock, s.updatedAtLogIndex, s.updatedAtTimestamp)
  }

  /** Whether an entry says something the row does not reflect: ahead of it, and for reports and
      removals past the bootstrap; an expiry that is not positive says nothing. */
  predicate IsNew(s: FeedState, x: FeedEntry) {
    && (x.at.block > s.updatedAtBlock || (x.at.block == s.updatedAtBlock && x.at.logIndex > s.updatedAtLogIndex))
    && match x.change
       case Report(_, _) => x.at.block > s.bootstrapThroughBlock
       case Remove(_) => x.at.block > s.bootstrapThroughBlock
       case Expiry(value) => value > 0
       case Median => true
  }

  function Seen(v: View, x: FeedEntry): View {
    var moved := v.(block := x.at.block, logIndex := x.at.logIndex, timestamp := x.at.timestamp);
    match x.change
    case Report(reporter, timestamp) => moved.(reports := v.reports[AsAddress(reporter) := timestamp])
    case Remove(reporter) => moved.(reports := v.reports - {AsAddress(reporter)})
    case Expiry(value) => moved.(expiry := value)
    case Median => moved
  }

  /** What the row says once all entries that are new to the starting row have been taken in. */
  ghost function SeenAll(s: FeedState, log: seq<FeedEntry>): View
    requires |s.reporters| == |s.timestamps|
  {
    if log == [] then ViewOf(s) else
      var v := SeenAll(s, log[..|log| - 1]);
      if IsNew(s, log[|log| - 1]) then Seen(v, log[|log| - 1]) else v
  }

  ghost predicate WatermarkFrom(s: FeedState, t: FeedState, log: seq<FeedEntry>) {
    || (t.updatedAtBlock == s.updatedAtBlock && t.updatedAtLogIndex == s.updatedAtLogIndex)
    || exists j :: 0 <= j < |log| && t.updatedAtBlock == log[j].at.block && t.updatedAtLogIndex == log[j].at.logIndex && IsNew(s, log[j])
  }

  /** An entry is new to the row as it stands exactly if it is new to the starting row. */
  lemma SameNews(s: FeedState, t: FeedState, log: seq<FeedEntry>, x: FeedEntry)
    requires WatermarkFrom(s, t, log) && t.bootstrapThroughBlock == s.bootstrapThroughBlock
    requires forall j :: 0 <= j < |log| ==> Before(log[j].at, x.at)
    ensures IsNew(t, x) <==> IsNew(s, x)
  {
  }

  lemma DeliveredOnce(t: FeedState, x: FeedEntry)
    requires Valid(t) && Acceptable(t, x) && Position(t, x.at) != 0
    ensures
      var r := Deliver(t, x);
      && r.Ok? && Valid(r.value) && r.value.bootstrapThroughBlock == t.bootstrapThroughBlock
      && (if IsNew(t, x) then ViewOf(r.value) == Seen(ViewOf(t), x) else r.value == t)
      && Deliver(r.value, x) == r
      && (Position(t, x.at) < 0 ==> r.value == t)
  {
    hide Rebuilt, MapOf, Active, Sort, UpperMedianTimestamp;
    var r := Deliver(t, x);
    match x.change
    case Report(reporter, timestamp) =>
      ReportIsUpdate(t, reporter, timestamp, x.at);
      if !IsEventAlreadyApplied(t, x.at) {
        var u := Reported(t, reporter, timestamp, x.at).value;
        ReportIsUpdate(u, reporter, timestamp, x.at);
      }
    case Remove(reporter) =>
      RemovalIsRemoval(t, reporter, x.at);
      if !IsEventAlreadyApplied(t, x.at) {
        RemovalIsRemoval(Removed(t, reporter, x.at).value, reporter, x.at);
      }
    case Expiry(value) => SameReports(t, r.value);
    case Median => SameReports(t, r.value);
  }

  lemma SameReports(t: FeedState, u: FeedState)
    requires t.reporters == u.reporters && t.timestamps == u.timestamps && |t.reporters| == |t.timestamps|
    ensures Active(t) == Active(u)
  {
  }

  /** Anything strictly behind the watermark is ignored. */
  lemma BehindIsIgnored(t: FeedState, x: FeedEntry)
    requires Position(t, x.at) < 0
    ensures Deliver(t, x) == Ok(t)
  {
  }

  lemma IsLogPrefix(s: FeedState, log: seq<FeedEntry>, k: nat)
    requires IsLog(s, log) && k <= |log|
    ensures IsLog(s, log[..k])
  {
    hide Deliver, Acceptable, Valid;
    forall i | 0 <= i < k ensures log[..k][..i] == log[..i] {}
  }

  lemma {:induction false} LogSettles(s: FeedState, log: seq<FeedEntry>)
    requires Valid(s) && IsLog(s, log)
    ensures SettledAt(Deliver, s, log)
    ensures Valid(Run(Deliver, s, log).value) && WatermarkFrom(s, Run(Deliver, s, log).value, log)
    ensures Run(Deliver, s, log).value.bootstrapThroughBlock == s.bootstrapThroughBlock
    ensures |s.reporters| == |s.timestamps| && ViewOf(Run(Deliver, s, log).value) == SeenAll(s, log)
  {
    hide Deliver, Acceptable, IsNew, Active, UpperMedianTimestamp;
    if log != [] {
      var init, x := log[..|log| - 1], log[|log| - 1];
      IsLogPrefix(s, log, |init|);
      LogSettles(s, init);
      var t := Run(Deliver, s, init).value;
      assert Acceptable(t, x);
      assert Position(t, x.at) != 0;
      DeliveredOnce(t, x);
      var r := Deliver(t, x);
      forall j | 0 <= j < |init| ensures Deliver(r.value, log[j]) == r {
        assert Deliver(t, init[j]) == Ok(t) && Before(log[j].at, x.at);
        if r.value != t { BehindIsIgnored(r.value, log[j]); }
      }
      forall j | 0 <= j < |init| ensures Before(init[j].at, x.at) { assert Before(log[j].at, log[|init|].at); }
      SameNews(s, t, init, x);
      if IsNew(t, x) {
        assert log[|init|] == x && ViewOf(r.value) == Seen(ViewOf(t), x);
      } else {
        WatermarkStays(s, t, init, x);
      }
    }
  }

  lemma WatermarkStays(s: FeedState, t: FeedState, log: seq<FeedEntry>, x: FeedEntry)
    requires WatermarkFrom(s, t, log)
    ensures WatermarkFrom(s, t, log + [x])
  {
    if j :| 0 <= j < |log| && t.updatedAtBlock == log[j].at.block && t.updatedAtLogIndex == log[j].at.logIndex && IsNew(s, log[j]) {
      assert (log + [x])[j] == log[j];
    }
  }

  /** Any delivery with rewinds never throws and takes in exactly what is new to the starting row, each
      entry once and in order; the lists and the median follow from the reports. */
  lemma FeedExactlyOnce(s: FeedState, log: seq<FeedEntry>, indices: seq<nat>)
    requires Valid(s) && IsLog(s, log) && IsDelivery(indices, |log|) && Reached(indices) == |log|
    ensures Run(Deliver, s, Delivered(log, indices)) == Run(Deliver, s, log)
    ensures Run(Deliver, s, log).Ok? && Valid(Run(Deliver, s, log).value)
    ensures |s.reporters| == |s.timestamps| && ViewOf(Run(Deliver, s, log).value) == SeenAll(s, log)
  {
    hide IsLog, Valid, SettledAt, Deliver;
    forall k | 0 <= k <= |log| ensures SettledAt(Deliver, s, log[..k]) {
      IsLogPrefix(s, log, k);
      LogSettles(s, log[..k]);
    }
    ExactlyOnce(Deliver, s, log, indices);
    LogSettles(s, log);
  }

  /** A different report, or a different expiry, at the very position of the watermark is not dropped
      as a repeat: it is refused as a conflict. */
  lemma ConflictIsRefused(s: FeedState, x: FeedEntry)
    requires Valid(s) && x.at.block == s.updatedAtBlock && x.at.logIndex == s.updatedAtLogIndex
    ensures match x.change
      case Report(reporter, timestamp) =>
        x.at.block > s.bootstrapThroughBlock && !(AsAddress(reporter) in Active(s) && Active(s)[AsAddress(reporter)] == timestamp) ==>
          Deliver(s, x) == Err(FeedError.Conflict)
      case Expiry(value) => value > 0 && value != s.reportExpiry ==> Deliver(s, x) == Err(FeedError.Conflict)
      case _ => Deliver(s, x) == Ok(s)
  {
    hide MapOf, Rebuilt, AsAddress;
  }

  /** A median log is claimed on its first delivery and refused on every later one. */
  lemma MedianClaimedOnce(s: FeedState, log: seq<FeedEntry>, k: nat, later: nat)
    requires Valid(s) && IsLog(s, log) && k < later <= |log| && log[k].change == Median
    requires Position(s, log[k].at) > 0
    ensures Run(Deliver, s, log[..k]).Ok? && !ClaimMedianUpdate(Run(Deliver, s, log[..k]).value, log[k].at).1
    ensures Run(Deliver, s, log[..later]).Ok? && ClaimMedianUpdate(Run(Deliver, s, log[..later]).value, log[k].at).1
  {
    hide Valid, Deliver, Acceptable;
    IsLogPrefix(s, log, k);
    IsLogPrefix(s, log, later);
    LogSettles(s, log[..k]);
    LogSettles(s, log[..later]);
    var t, u := Run(Deliver, s, log[..k]).value, Run(Deliver, s, log[..later]).value;
    assert log[..later][k] == log[k];
    assert Deliver(u, log[k]) == Ok(u);
    MedianDelivered(u, log[k]);
    if j :| 0 <= j < |log[..k]| && t.updatedAtBlock == log[..k][j].at.block && t.updatedAtLogIndex == log[..k][j].at.logIndex {
      assert Before(log[j].at, log[k].at);
    }
  }

  lemma MedianDelivered(u: FeedState, x: FeedEntry)
    requires x.change == Median && Deliver(u, x) == Ok(u)
    ensures IsEventAtOrBehindWatermark(u, x.at)
  {
  }
}
