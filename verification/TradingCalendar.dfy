/** The FX weekend: Friday 21:00 UTC (inclusive) to Sunday 23:00 UTC (exclusive), every week. */
module TradingCalendar {
  import opened SecondCounting

  const FX_CLOSE_DAY := 5
  const FX_CLOSE_HOUR_UTC := 21
  const FX_REOPEN_DAY := 0
  const FX_REOPEN_HOUR_UTC := 23

  /** Friday 2024-01-05 21:00:00 UTC. */
  const ANCHOR_FRI_2100 := 1704488400
  const WEEK_SECONDS := 7 * 24 * 3600
  const WEEKEND_SECONDS :=
    (FX_REOPEN_DAY - FX_CLOSE_DAY + 7) % 7 * 86400 + (FX_REOPEN_HOUR_UTC - FX_CLOSE_HOUR_UTC) * 3600

  /** Integer division that truncates toward zero. */
  function TruncatingDivide(a: int, b: int): int
    requires b > 0
  {
    if a >= 0 then a / b else -(-a / b)
  }

  function TruncatingRemainder(a: int, b: int): int
    requires b > 0
  {
    a - b * TruncatingDivide(a, b)
  }

  predicate InWeekend(t: int) {
    (t - ANCHOR_FRI_2100) % WEEK_SECONDS < WEEKEND_SECONDS
  }

  predicate Trading(t: int) { !InWeekend(t) }

  ghost function TradingSeconds(from: int, until: int): nat {
    Count(from, until, Trading)
  }

  function WeekStart(k: int): int { ANCHOR_FRI_2100 + k * WEEK_SECONDS }

  /** Within one week, the weekend is its first stretch. */
  lemma WeekendOfWeek(k: int, t: int)
    requires WeekStart(k) <= t < WeekStart(k + 1)
    ensures InWeekend(t) <==> t < WeekStart(k) + WEEKEND_SECONDS
  {
    assert (t - ANCHOR_FRI_2100) % WEEK_SECONDS == t - WeekStart(k);
  }

  function Clamp(t: int, low: int, high: int): int {
    if t < low then low else if t > high then high else t
  }

  /** The weekend seconds of the part of [from, until) that lies in week `k`. */
  lemma OneWeek(k: int, from: int, until: int)
    requires from <= until
    ensures
      var a, b := Clamp(WeekStart(k), from, until), Clamp(WeekStart(k + 1), from, until);
      var weekendEnd := WeekStart(k) + WEEKEND_SECONDS;
      Count(a, b, InWeekend) ==
        if WeekStart(k) < until && weekendEnd > from
        then (if weekendEnd < until then weekendEnd else until) - (if WeekStart(k) > from then WeekStart(k) else from)
        else 0
  {
    hide InWeekend;
    var a, b := Clamp(WeekStart(k), from, until), Clamp(WeekStart(k + 1), from, until);
    var mid := Clamp(WeekStart(k) + WEEKEND_SECONDS, from, until);
    forall t | a <= t < mid ensures InWeekend(t) { WeekendOfWeek(k, t); }
    forall t | mid <= t < b ensures !InWeekend(t) { WeekendOfWeek(k, t); }
    CountAll(a, mid, InWeekend);
    CountNone(mid, b, InWeekend);
    CountSplit(a, mid, b, InWeekend);
  }

  /** Adjusting the truncated quotient gives the week that contains the start. */
  lemma FirstWeek(offset: int)
    ensures
      var k := TruncatingDivide(offset, WEEK_SECONDS)
        - (if offset < 0 && TruncatingRemainder(offset, WEEK_SECONDS) != 0 then 1 else 0);
      k * WEEK_SECONDS <= offset < (k + 1) * WEEK_SECONDS
  {
  }

  /** One iteration per overlapping week, yet exactly the count of weekend seconds. */
  method WeekendOverlapSeconds(startTs: int, endTs: int) returns (total: int)
    ensures total == Count(startTs, endTs, InWeekend)
  {
    hide Count, InWeekend, TruncatingDivide, TruncatingRemainder;
    if endTs <= startTs { CountNone(startTs, endTs, InWeekend); return 0; }
    total := 0;
    var offset := startTs - ANCHOR_FRI_2100;
    var k := TruncatingDivide(offset, WEEK_SECONDS);
    if offset < 0 && TruncatingRemainder(offset, WEEK_SECONDS) != 0 { k := k - 1; }
    FirstWeek(offset);
    CountNone(startTs, startTs, InWeekend);
    while true
      invariant WeekStart(k) >= WeekStart(k - 1) && (WeekStart(k) < endTs || WeekStart(k - 1) < endTs || WeekStart(k) <= startTs)
      invariant total == Count(startTs, Clamp(WeekStart(k), startTs, endTs), InWeekend)
      decreases endTs - WeekStart(k)
    {
      var wStart := ANCHOR_FRI_2100 + k * WEEK_SECONDS;
      var wEnd := wStart + WEEKEND_SECONDS;
      if wStart >= endTs { break; }
      OneWeek(k, startTs, endTs);
      CountSplit(startTs, Clamp(WeekStart(k), startTs, endTs), Clamp(WeekStart(k + 1), startTs, endTs), InWeekend);
      if wEnd > startTs {
        var lo := if wStart > startTs then wStart else startTs;
        var hi := if wEnd < endTs then wEnd else endTs;
        total := total + (hi - lo);
      }
      k := k + 1;
    }
  }

  lemma {:induction false} CountComplement(from: int, until: int)
    requires from <= until
    ensures Count(from, until, Trading) == until - from - Count(from, until, InWeekend)
    decreases until - from
  {
    if from < until { CountComplement(from, until - 1); }
  }

  method TradingSecondsInRange(startTs: int, endTs: int) returns (seconds: int)
    ensures seconds == TradingSeconds(startTs, endTs)
  {
    hide InWeekend, Trading;
    if endTs <= startTs { return 0; }
    var overlap := WeekendOverlapSeconds(startTs, endTs);
    CountComplement(startTs, endTs);
    seconds := endTs - startTs - overlap;
  }

  /** Additive over adjacent ranges, monotone in both ends and never more than the wall clock. */
  lemma TradingSecondsLaws(a: int, b: int, c: int)
    requires a <= b <= c
    ensures TradingSeconds(a, c) == TradingSeconds(a, b) + TradingSeconds(b, c)
    ensures 0 <= TradingSeconds(a, b) <= b - a
    ensures TradingSeconds(a, b) <= TradingSeconds(a, c) && TradingSeconds(b, c) <= TradingSeconds(a, c)
  {
    CountSplit(a, b, c, Trading);
  }

  // ---------------------------------------------------------------- the other definition of the weekend

  /** Day of the week, Sunday being 0; the epoch was a Thursday. */
  function UtcDay(t: int): int { (t / 86400 + 4) % 7 }

  function UtcHour(t: int): int { t % 86400 / 3600 }

  predicate IsFxWeekend(t: int) {
    var day, hour := UtcDay(t), UtcHour(t);
    day == 6 || (day == 0 && hour < FX_REOPEN_HOUR_UTC) || (day == 5 && hour >= FX_CLOSE_HOUR_UTC)
  }

  predicate IsFxReopenGrace(t: int) {
    UtcDay(t) == 0 && UtcHour(t) == 23
  }

  lemma DayInWeek(t: int)
    ensures
      var q := (t - ANCHOR_FRI_2100) / WEEK_SECONDS;
      var r := (t - ANCHOR_FRI_2100) % WEEK_SECONDS;
      && t == ANCHOR_FRI_2100 + q * WEEK_SECONDS + r
      && t % 86400 == (75600 + r) % 86400
      && UtcDay(t) == (5 + (75600 + r) / 86400) % 7
  {
    var q := (t - ANCHOR_FRI_2100) / WEEK_SECONDS;
    var r := (t - ANCHOR_FRI_2100) % WEEK_SECONDS;
    var d := (75600 + r) / 86400;
    var e := (75600 + r) % 86400;
    assert ANCHOR_FRI_2100 == 19727 * 86400 + 75600;
    assert t == (19727 + 7 * q + d) * 86400 + e;
    assert t / 86400 == 19727 + 7 * q + d;
    assert (19727 + 7 * q + d + 4) == 7 * (q + 2818) + (5 + d);
  }

  /** The dashboard's calendar predicate and the indexer's weekend arithmetic agree on every second. */
  lemma WeekendDefinitionsAgree(t: int)
    ensures IsFxWeekend(t) <==> InWeekend(t)
  {
    DayInWeek(t);
    var r := (t - ANCHOR_FRI_2100) % WEEK_SECONDS;
    var d := (75600 + r) / 86400;
    assert 0 <= d <= 7;
  }

  /** The reopen grace is exactly the first hour after a weekend. */
  lemma GraceIsFirstHour(t: int)
    ensures IsFxReopenGrace(t) <==> !InWeekend(t) && InWeekend(t - 3600)
  {
    DayInWeek(t);
    var r := (t - ANCHOR_FRI_2100) % WEEK_SECONDS;
    var d, e := (75600 + r) / 86400, (75600 + r) % 86400;
    assert 0 <= d <= 7 && 75600 + r == d * 86400 + e && UtcDay(t) == (5 + d) % 7 && t % 86400 == e;
    assert IsFxReopenGrace(t) <==> d == 2 && 82800 <= e;
    assert IsFxReopenGrace(t) <==> WEEKEND_SECONDS <= r < WEEKEND_SECONDS + 3600;
    HourBefore(t);
  }

  lemma HourBefore(t: int)
    ensures
      var r := (t - ANCHOR_FRI_2100) % WEEK_SECONDS;
      (t - 3600 - ANCHOR_FRI_2100) % WEEK_SECONDS == if r >= 3600 then r - 3600 else r - 3600 + WEEK_SECONDS
  {
    var q := (t - ANCHOR_FRI_2100) / WEEK_SECONDS;
    var r := (t - ANCHOR_FRI_2100) % WEEK_SECONDS;
    assert t - 3600 - ANCHOR_FRI_2100 == q * WEEK_SECONDS + (r - 3600) == (q - 1) * WEEK_SECONDS + (r - 3600 + WEEK_SECONDS);
  }
}
