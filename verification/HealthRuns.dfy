/** The per-second meaning of the health counters, over any run of samples and expiry changes. */
module HealthRuns {
  import opened SecondCounting
  import opened TradingCalendar
  import opened HealthScore

  /** A sample also brings the report time and the expiry in force from then on. */
  datatype Step =
    | Sample(now: int, reading: Reading, reportAt: int, newExpiry: int)
    | SetExpiry(now: int, newExpiry: int)

  const NEW_POOL := PoolHealth(0, 0, 0, NoData, false, 0, 0)

  /** A sample is scored under the freshness that held before it. */
  ghost function After(p: PoolHealth, x: Step): PoolHealth {
    match x
    case Sample(now, reading, reportAt, newExpiry) =>
      Recorded(p, reading, now, Freshness(p.reportAt, p.expiry)).(reportAt := reportAt, expiry := newExpiry)
    case SetExpiry(now, newExpiry) => ExpirySet(p, newExpiry, now)
  }

  ghost function PoolAfter(h: seq<Step>): PoolHealth {
    if h == [] then NEW_POOL else After(PoolAfter(h[..|h| - 1]), h[|h| - 1])
  }

  // ---------------------------------------------------------------- what is in force after a step

  function ExpiryInForce(h: seq<Step>): int {
    if h == [] then 0 else h[|h| - 1].newExpiry
  }

  function RatioInForce(h: seq<Step>): Ratio {
    if h == [] then NoData
    else if h[|h| - 1].Sample? then SnapshotOf(h[|h| - 1].reading).ratio
    else RatioInForce(h[..|h| - 1])
  }

  function ReportInForce(h: seq<Step>): int {
    if h == [] then 0
    else if h[|h| - 1].Sample? then h[|h| - 1].reportAt
    else ReportInForce(h[..|h| - 1])
  }

  predicate CarriesData(x: Step) {
    x.Sample? ==> SnapshotOf(x.reading).hasData
  }

  /** Time starts after 0 and never runs backwards; an expiry change changes the expiry. */
  ghost predicate Chronological(h: seq<Step>) {
    && (forall i :: 0 <= i < |h| ==> h[i].now > 0)
    && (forall i, j :: 0 <= i < j < |h| ==> h[i].now <= h[j].now)
    && (forall i :: 0 <= i < |h| && h[i].SetExpiry? ==> h[i].newExpiry != ExpiryInForce(h[..i]))
  }

  // ---------------------------------------------------------------- second by second

  /** Second `s` lies between step `i` and the next, and both ends of that interval carry data. */
  ghost predicate CoveredBy(h: seq<Step>, i: nat, s: int) {
    && i + 1 < |h| && h[i].now <= s < h[i + 1].now
    && RatioInForce(h[..i + 1]).Scaled? && CarriesData(h[i + 1])
  }

  /** There is a report and it has not expired by `s`. */
  predicate FreshAt(h: seq<Step>, s: int) {
    ReportInForce(h) > 0 && ExpiryInForce(h) > 0 && s < ReportInForce(h) + ExpiryInForce(h)
  }

  /** ... and at its start the pool was healthy, with a report still fresh at `s`. */
  ghost predicate HealthyBy(h: seq<Step>, i: nat, s: int) {
    CoveredBy(h, i, s) && Healthy(RatioInForce(h[..i + 1])) && FreshAt(h[..i + 1], s)
  }

  ghost predicate Covered(h: seq<Step>, s: int) { exists i: nat :: CoveredBy(h, i, s) }
  ghost predicate HealthySecond(h: seq<Step>, s: int) { exists i: nat :: HealthyBy(h, i, s) }

  ghost function CoveredTrading(h: seq<Step>): int -> bool {
    (s: int) => Trading(s) && Covered(h, s)
  }

  ghost function HealthyTrading(h: seq<Step>): int -> bool {
    (s: int) => Trading(s) && HealthySecond(h, s)
  }

  function LastTime(h: seq<Step>): int {
    if h == [] then 0 else h[|h| - 1].now
  }

  // ---------------------------------------------------------------- the state follows the history

  ghost predicate SampledYet(h: seq<Step>) {
    exists i :: 0 <= i < |h| && h[i].Sample?
  }

  ghost predicate DataYet(h: seq<Step>) {
    exists i :: 0 <= i < |h| && h[i].Sample? && SnapshotOf(h[i].reading).hasData
  }

  lemma ChronologicalInit(h: seq<Step>)
    requires h != [] && Chronological(h)
    ensures Chronological(h[..|h| - 1]) && LastTime(h[..|h| - 1]) <= LastTime(h)
  {
    var init := h[..|h| - 1];
    forall i | 0 <= i < |init| ensures init[..i] == h[..i] {}
  }

  lemma NoDataNoRatio(r: Reading)
    ensures SnapshotOf(r).hasData <==> SnapshotOf(r).ratio.Scaled?
  {
  }

  /** What a step does to everything but the counters. */
  lemma StepState(p: PoolHealth, x: Step)
    requires p.cursor <= x.now && 0 < x.now
    ensures
      var q, snapshot := After(p, x), if x.Sample? then SnapshotOf(x.reading) else Snapshot(p.lastRatio, false, p.hasData);
      && q.cursor == (if x.Sample? || (x.newExpiry != p.expiry && p.cursor > 0) then x.now else p.cursor)
      && q.lastRatio == (if snapshot.hasData || x.SetExpiry? then snapshot.ratio else NoData)
      && (q.hasData <==> p.hasData || (x.Sample? && snapshot.hasData))
      && q.reportAt == (if x.Sample? then x.reportAt else p.reportAt) && q.expiry == x.newExpiry
  {
    hide TradingSeconds, Count, FreshTrading, ComputeHealthSnapshotFields, Healthy;
  }

  lemma {:induction false} StateFollows(h: seq<Step>)
    requires Chronological(h)
    ensures
      var p := PoolAfter(h);
      && p.cursor == (if SampledYet(h) then LastTime(h) else 0)
      && p.lastRatio == RatioInForce(h) && p.reportAt == ReportInForce(h) && p.expiry == ExpiryInForce(h)
      && (p.hasData <==> DataYet(h))
      && (!SampledYet(h) ==> RatioInForce(h) == NoData)
  {
    hide After, SnapshotOf;
    if h != [] {
      var init, x := h[..|h| - 1], h[|h| - 1];
      ChronologicalInit(h);
      StateFollows(init);
      StepState(PoolAfter(init), x);
      assert h[..|init|] == init;
      assert forall i :: 0 <= i < |init| ==> init[i] == h[i];
      if x.Sample? { NoDataNoRatio(x.reading); }
    }
  }

  // ---------------------------------------------------------------- the past is fixed

  lemma PrefixKept(h: seq<Step>, x: Step, n: nat)
    requires n <= |h|
    ensures (h + [x])[..n] == h[..n]
  {
  }

  /** An interval that has begun before the last step does not change when a step is added. */
  lemma IntervalStays(h: seq<Step>, x: Step, i: nat, s: int)
    requires Chronological(h + [x]) && s < LastTime(h)
    ensures CoveredBy(h + [x], i, s) == CoveredBy(h, i, s) && HealthyBy(h + [x], i, s) == HealthyBy(h, i, s)
  {
    hide RatioInForce, CarriesData, Healthy, FreshAt;
    var all := h + [x];
    if i + 1 < |h| {
      assert all[i] == h[i] && all[i + 1] == h[i + 1];
      PrefixKept(h, x, i + 1);
    } else if i + 1 == |h| {
      assert all[i] == h[i];
    }
  }

  lemma PastIsFixed(h: seq<Step>, x: Step, s: int)
    requires Chronological(h + [x]) && s < LastTime(h)
    ensures Covered(h + [x], s) == Covered(h, s) && HealthySecond(h + [x], s) == HealthySecond(h, s)
  {
    hide CoveredBy, HealthyBy;
    forall i: nat ensures CoveredBy(h + [x], i, s) == CoveredBy(h, i, s) && HealthyBy(h + [x], i, s) == HealthyBy(h, i, s) {
      IntervalStays(h, x, i, s);
    }
  }

  /** The seconds between the last step and a new one. */
  lemma NewSeconds(h: seq<Step>, x: Step, s: int)
    requires h != [] && Chronological(h + [x]) && LastTime(h) <= s < x.now
    ensures Covered(h + [x], s) <==> RatioInForce(h).Scaled? && CarriesData(x)
    ensures HealthySecond(h + [x], s) <==>
      RatioInForce(h).Scaled? && CarriesData(x) && Healthy(RatioInForce(h)) && FreshAt(h, s)
  {
    hide Healthy, FreshAt, CarriesData;
    var all := h + [x];
    var last := |h| - 1;
    assert all[..last + 1] == h && all[last] == h[last] && all[last + 1] == x;
    assert forall j :: 0 <= j <= last ==> all[j].now <= all[last].now;
    forall i: nat | i + 1 < |all| && all[i].now <= s < all[i + 1].now ensures i == last {}
    assert CoveredBy(all, last, s) <==> RatioInForce(h).Scaled? && CarriesData(x);
    assert HealthyBy(all, last, s) <==> CoveredBy(all, last, s) && Healthy(RatioInForce(h)) && FreshAt(h, s);
  }

  lemma {:induction false} NothingBefore(h: seq<Step>, s: int)
    requires Chronological(h) && !SampledYet(h)
    ensures !Covered(h, s) && !HealthySecond(h, s)
  {
    forall i: nat ensures !CoveredBy(h, i, s) {
      if i + 1 < |h| { NoSampleNoRatio(h[..i + 1]); }
    }
  }

  lemma {:induction false} NoSampleNoRatio(h: seq<Step>)
    requires !SampledYet(h)
    ensures RatioInForce(h) == NoData
  {
    if h != [] {
      assert forall i :: 0 <= i < |h| - 1 ==> h[..|h| - 1][i] == h[i];
      NoSampleNoRatio(h[..|h| - 1]);
    }
  }

  // ---------------------------------------------------------------- the counters

  /** What the new step adds: the trading seconds since the last one, if both ends carry data. */
  lemma AddedTotal(h: seq<Step>, x: Step)
    requires h != [] && Chronological(h + [x])
    ensures
      Count(0, x.now, CoveredTrading(h + [x])) == Count(0, LastTime(h), CoveredTrading(h))
        + (if RatioInForce(h).Scaled? && CarriesData(x) then TradingSeconds(LastTime(h), x.now) else 0)
  {
    hide Covered, Trading, RatioInForce, CarriesData, SnapshotOf;
    var all, t := h + [x], LastTime(h);
    assert all[|h| - 1] == h[|h| - 1] && all[|h|] == x;
    CountSplit(0, t, x.now, CoveredTrading(all));
    forall s | 0 <= s < t ensures CoveredTrading(all)(s) == CoveredTrading(h)(s) { PastIsFixed(h, x, s); }
    CountSame(0, t, CoveredTrading(all), CoveredTrading(h));
    forall s | t <= s < x.now ensures Covered(all, s) <==> RatioInForce(h).Scaled? && CarriesData(x) { NewSeconds(h, x, s); }
    if RatioInForce(h).Scaled? && CarriesData(x) {
      CountSame(t, x.now, CoveredTrading(all), Trading);
    } else {
      CountNone(t, x.now, CoveredTrading(all));
    }
  }

  ghost function FreshInForce(h: seq<Step>): int -> bool { FreshTrading(Freshness(ReportInForce(h), ExpiryInForce(h))) }

  /** ... and to the healthy seconds, those of them at which the report was still fresh. */
  lemma AddedBinary(h: seq<Step>, x: Step)
    requires h != [] && Chronological(h + [x])
    ensures
      Count(0, x.now, HealthyTrading(h + [x])) == Count(0, LastTime(h), HealthyTrading(h))
        + (if Healthy(RatioInForce(h)) && CarriesData(x) then Count(LastTime(h), x.now, FreshInForce(h)) else 0)
  {
    hide HealthySecond, Trading, RatioInForce, CarriesData, SnapshotOf, ReportInForce, ExpiryInForce;
    var all, t := h + [x], LastTime(h);
    assert all[|h| - 1] == h[|h| - 1] && all[|h|] == x;
    CountSplit(0, t, x.now, HealthyTrading(all));
    forall s | 0 <= s < t ensures HealthyTrading(all)(s) == HealthyTrading(h)(s) { PastIsFixed(h, x, s); }
    CountSame(0, t, HealthyTrading(all), HealthyTrading(h));
    var scored := Healthy(RatioInForce(h)) && CarriesData(x);
    forall s | t <= s < x.now ensures HealthySecond(all, s) <==> scored && FreshAt(h, s) { NewSeconds(h, x, s); }
    if scored {
      CountSame(t, x.now, HealthyTrading(all), FreshInForce(h));
    } else {
      CountNone(t, x.now, HealthyTrading(all));
    }
  }

  lemma StepCounters(p: PoolHealth, x: Step)
    requires p.cursor > 0 && p.cursor <= x.now
    requires x.SetExpiry? ==> x.newExpiry != p.expiry
    ensures
      var q := After(p, x);
      && q.totalSeconds == p.totalSeconds + (if p.lastRatio.Scaled? && CarriesData(x) then TradingSeconds(p.cursor, x.now) else 0)
      && q.binarySeconds == p.binarySeconds +
           (if Healthy(p.lastRatio) && CarriesData(x) then Count(p.cursor, x.now, FreshTrading(Freshness(p.reportAt, p.expiry))) else 0)
  {
    hide Trading, ComputeHealthSnapshotFields;
  }

  lemma UnsampledCounters(p: PoolHealth, x: Step)
    requires p.cursor == 0 && p.lastRatio == NoData
    ensures After(p, x).totalSeconds == p.totalSeconds && After(p, x).binarySeconds == p.binarySeconds
  {
  }

  ghost predicate CountersRight(h: seq<Step>) {
    && PoolAfter(h).totalSeconds == Count(0, LastTime(h), CoveredTrading(h))
    && PoolAfter(h).binarySeconds == Count(0, LastTime(h), HealthyTrading(h))
  }

  lemma SampledStep(init: seq<Step>, x: Step)
    requires Chronological(init + [x]) && Chronological(init) && SampledYet(init) && CountersRight(init)
    ensures CountersRight(init + [x])
  {
    hide After, RatioInForce, CarriesData, Healthy, TradingSeconds, ReportInForce, ExpiryInForce, CoveredTrading, HealthyTrading;
    var h := init + [x];
    assert h[..|init|] == init && h[|init| - 1] == init[|init| - 1] && h[|init|] == x;
    StateFollows(init);
    ExpiryReallyChanges(h);
    assert PoolAfter(h) == After(PoolAfter(init), x);
    StepCounters(PoolAfter(init), x);
    AddedTotal(init, x);
    AddedBinary(init, x);
  }

  /** The counters count seconds: the total counts the non-weekend seconds of intervals with data
      at both ends, the healthy ones those that started healthy and before the report expired. */
  lemma {:induction false} CountersCountSeconds(h: seq<Step>)
    requires Chronological(h)
    ensures PoolAfter(h).totalSeconds == Count(0, LastTime(h), CoveredTrading(h))
    ensures PoolAfter(h).binarySeconds == Count(0, LastTime(h), HealthyTrading(h))
  {
    hide After, RatioInForce, TradingSeconds, ReportInForce, ExpiryInForce, CoveredTrading, HealthyTrading, Chronological, SampledYet;
    if h != [] {
      var init, x := h[..|h| - 1], h[|h| - 1];
      assert h == init + [x];
      ChronologicalInit(h);
      CountersCountSeconds(init);
      if SampledYet(init) {
        SampledStep(init, x);
      } else {
        StateFollows(init);
        UnsampledCounters(PoolAfter(init), x);
        BeforeAnySample(init, x);
      }
    }
  }

  lemma ExpiryReallyChanges(h: seq<Step>)
    requires h != [] && Chronological(h)
    ensures h[|h| - 1].SetExpiry? ==> h[|h| - 1].newExpiry != ExpiryInForce(h[..|h| - 1])
  {
  }

  lemma BeforeAnySample(init: seq<Step>, x: Step)
    requires Chronological(init + [x]) && Chronological(init) && !SampledYet(init)
    ensures Count(0, LastTime(init), CoveredTrading(init)) == Count(0, x.now, CoveredTrading(init + [x])) == 0
    ensures Count(0, LastTime(init), HealthyTrading(init)) == Count(0, x.now, HealthyTrading(init + [x])) == 0
  {
    hide Covered, HealthySecond, Trading;
    var all := init + [x];
    forall s ensures !Covered(all, s) && !HealthySecond(all, s) { UnsampledSecond(init, x, s); }
    forall s ensures !Covered(init, s) && !HealthySecond(init, s) { NothingBefore(init, s); }
    CountNone(0, LastTime(init), CoveredTrading(init));
    CountNone(0, x.now, CoveredTrading(all));
    CountNone(0, LastTime(init), HealthyTrading(init));
    CountNone(0, x.now, HealthyTrading(all));
  }

  lemma UnsampledSecond(init: seq<Step>, x: Step, s: int)
    requires Chronological(init + [x]) && !SampledYet(init)
    ensures !Covered(init + [x], s) && !HealthySecond(init + [x], s)
  {
    var all := init + [x];
    forall i: nat ensures !CoveredBy(all, i, s) {
      if i + 1 < |all| {
        assert all[..i + 1] == init[..i + 1];
        NoSampleNoRatio(init[..i + 1]);
      }
    }
  }

  lemma HealthyIsCovered(h: seq<Step>, s: int)
    ensures HealthySecond(h, s) ==> Covered(h, s)
  {
  }

  /** Hence the healthy seconds never exceed the total, nor the total the trading seconds elapsed. */
  lemma CountersAreOrdered(h: seq<Step>)
    requires Chronological(h)
    ensures 0 <= PoolAfter(h).binarySeconds <= PoolAfter(h).totalSeconds <= TradingSeconds(0, LastTime(h))
  {
    hide Covered, HealthySecond, Trading;
    CountersCountSeconds(h);
    forall s ensures HealthySecond(h, s) ==> Covered(h, s) { HealthyIsCovered(h, s); }
    CountFewer(0, LastTime(h), HealthyTrading(h), CoveredTrading(h));
    CountFewer(0, LastTime(h), CoveredTrading(h), Trading);
  }
}
