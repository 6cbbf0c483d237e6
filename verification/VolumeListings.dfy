/** Reading a table in whatever order the store returns its rows. */
module VolumeListings {
  import opened Ordering
  import opened Sums
  import opened VolumeHistory
  import opened VolumeRollups
  import opened VolumeWindow
  import opened VolumeFlush

  /** `rows` are the rows of `keys`, one each. */
  ghost predicate ListedBy<K, T>(rows: seq<T>, keys: seq<K>, at: K -> T) {
    |rows| == |keys| && Distinct(keys) && forall i :: 0 <= i < |keys| ==> rows[i] == at(keys[i])
  }

  /** `rows` are the rows of the given set of keys, one each, in some order. */
  ghost predicate ListsRows<K(!new), T>(rows: seq<T>, members: set<K>, at: K -> T) {
    exists keys :: ListedBy(rows, keys, at) && Elements(keys) == members
  }

  /** Listing one more of the keys still to do. */
  lemma ListedNext<K, T>(rows: seq<T>, keys: seq<K>, at: K -> T, todo: set<K>, k: K)
    requires ListedBy(rows, keys, at) && Elements(keys) !! todo && k in todo
    ensures ListedBy(rows + [at(k)], keys + [k], at)
    ensures Elements(keys + [k]) + (todo - {k}) == Elements(keys) + todo && Elements(keys + [k]) !! todo - {k}
  {
    DistinctAppend(keys, k);
    assert k !in Elements(keys);
  }

  lemma NothingListed<K, T>(at: K -> T)
    ensures ListedBy([], [], at) && Elements<K>([]) == {}
  {
  }

  ghost function KeysThat<K, T>(keys: set<K>, at: K -> T, p: T -> bool): set<K> {
    set k | k in keys && p(at(k))
  }

  lemma ListedInit<K, T>(rows: seq<T>, keys: seq<K>, at: K -> T)
    requires ListedBy(rows, keys, at) && keys != []
    ensures
      var init, k := keys[..|keys| - 1], keys[|keys| - 1];
      ListedBy(rows[..|rows| - 1], init, at) && k !in init && Elements(keys) == Elements(init) + {k}
  {
    assert keys == keys[..|keys| - 1] + [keys[|keys| - 1]];
  }

  lemma {:induction false} ListedSum<K, T>(rows: seq<T>, keys: seq<K>, at: K -> T, p: T -> bool, value: T -> int)
    requires ListedBy(rows, keys, at)
    ensures SumOf(rows, p, value) == SumOver(KeysThat(Elements(keys), at, p), Of(at, value))
  {
    if keys != [] {
      var init, k := keys[..|keys| - 1], keys[|keys| - 1];
      ListedInit(rows, keys, at);
      ListedSum(rows[..|rows| - 1], init, at, p, value);
      var before := KeysThat(Elements(init), at, p);
      if p(at(k)) {
        SumOverAdd(before, k, Of(at, value));
        assert KeysThat(Elements(keys), at, p) == before + {k};
      } else {
        assert KeysThat(Elements(keys), at, p) == before;
      }
    }
  }

  /** The daily rows a bounded fetch returns. */
  ghost function DaysSince(table: map<TraderDayKey, TraderDay>, chain: int, from: int): set<TraderDayKey> {
    set k | k in table && k.chain == chain && from <= k.day
  }

  lemma FetchCovers(table: map<TraderDayKey, TraderDay>, chain: int, day: int, w: Window, p: DailyRow -> bool)
    requires w != WAll && forall r :: p(r) ==> InWindow(chain, day, w)(r)
    ensures KeysThat(DaysSince(table, chain, WindowStartDay(day, W90d)), DailyAt(table), p) == DaysThat(table, p)
  {
    forall k | k in DaysThat(table, p) ensures k in DaysSince(table, chain, WindowStartDay(day, W90d)) {
      assert InWindow(chain, day, w)(DailyAt(table)(k));
    }
  }

  lemma ListedAgg(a: TraderAgg, rows: seq<DailyRow>, keys: seq<TraderDayKey>, table: map<TraderDayKey, TraderDay>,
      chain: int, day: int, w: Window, t: string)
    requires w != WAll && ListedBy(rows, keys, DailyAt(table))
    requires Elements(keys) == DaysSince(table, chain, WindowStartDay(day, W90d))
    requires IsAggOf(a, rows, chain, day, w, t)
    ensures a == DailyAgg(table, chain, day, w, t)
  {
    hide SumOf, SumOver, DailyAt, WindowStartDay, HasFirstDay, ListedBy, DaysSince, DaysThat;
    var p, q := InWindowOf(chain, day, w, t), OnFirstDayOf(chain, day, w, t);
    FetchCovers(table, chain, day, w, p);
    FetchCovers(table, chain, day, w, q);
    ListedSum(rows, keys, DailyAt(table), p, RowVolume);
    ListedSum(rows, keys, DailyAt(table), p, RowSwaps);
    ListedSum(rows, keys, DailyAt(table), q, RowVolume);
    ListedSum(rows, keys, DailyAt(table), q, RowSwaps);
    ListedFlags(rows, keys, table, chain, day, w, t);
  }

  /** The listed rows that meet a condition are those of the keys that do. */
  lemma ListedMembers<K, T>(rows: seq<T>, keys: seq<K>, at: K -> T, p: T -> bool)
    requires ListedBy(rows, keys, at)
    ensures forall r :: r in rows && p(r) ==> exists k :: k in KeysThat(Elements(keys), at, p) && at(k) == r
    ensures forall k :: k in KeysThat(Elements(keys), at, p) ==> at(k) in rows && p(at(k))
  {
    forall r | r in rows && p(r) ensures exists k :: k in KeysThat(Elements(keys), at, p) && at(k) == r {
      var i :| 0 <= i < |rows| && rows[i] == r;
      assert keys[i] in Elements(keys);
    }
    forall k | k in KeysThat(Elements(keys), at, p) ensures at(k) in rows {
      var i :| 0 <= i < |keys| && keys[i] == k;
      assert rows[i] == at(k);
    }
  }

  lemma ListedFlags(rows: seq<DailyRow>, keys: seq<TraderDayKey>, table: map<TraderDayKey, TraderDay>, chain: int, day: int, w: Window, t: string)
    requires w != WAll && ListedBy(rows, keys, DailyAt(table))
    requires Elements(keys) == DaysSince(table, chain, WindowStartDay(day, W90d))
    ensures
      var p := InWindowOf(chain, day, w, t);
      && ((exists r :: r in rows && p(r) && r.actor) <==> DailyAgg(table, chain, day, w, t).actor)
      && ((!HasFirstDay(w) || exists r :: r in rows && p(r) && r.timestamp != WindowStartDay(day, w)) <==>
            DailyAgg(table, chain, day, w, t).activeOutside)
  {
    hide SumOf, SumOver, WindowStartDay, HasFirstDay, DaysSince, InWindowOf;
    var p := InWindowOf(chain, day, w, t);
    assert forall r :: p(r) ==> InWindow(chain, day, w)(r) by { InWindowOfAny(chain, day, w, t); }
    FetchCovers(table, chain, day, w, p);
    ListedMembers(rows, keys, DailyAt(table), p);
    assert DaysThat(table, p) == KeysThat(Elements(keys), DailyAt(table), p);
  }

  lemma InWindowOfAny(chain: int, day: int, w: Window, t: string)
    ensures forall r :: InWindowOf(chain, day, w, t)(r) ==> InWindow(chain, day, w)(r)
  {
  }

  lemma ListedTraders(rows: seq<DailyRow>, keys: seq<TraderDayKey>, table: map<TraderDayKey, TraderDay>, chain: int, day: int, w: Window)
    requires w != WAll && ListedBy(rows, keys, DailyAt(table))
    requires Elements(keys) == DaysSince(table, chain, WindowStartDay(day, W90d))
    ensures TradersIn(rows, chain, day, w) == DailyTraders(table, chain, day, w)
  {
    hide WindowStartDay, InWindow, DaysSince;
    var p := InWindow(chain, day, w);
    FetchCovers(table, chain, day, w, p);
    forall t ensures t in TradersIn(rows, chain, day, w) <==> t in DailyTraders(table, chain, day, w) {
      if t in TradersIn(rows, chain, day, w) {
        var r :| r in rows && p(r) && r.trader == t;
        var i :| 0 <= i < |rows| && rows[i] == r;
        assert keys[i] in Elements(keys) && keys[i] in KeysThat(Elements(keys), DailyAt(table), p);
        assert keys[i].trader == t;
      }
      if t in DailyTraders(table, chain, day, w) {
        var k :| k in DaysThat(table, p) && k.trader == t;
        assert k in KeysThat(Elements(keys), DailyAt(table), p);
        var i :| 0 <= i < |keys| && keys[i] == k;
        assert rows[i] in rows && rows[i].trader == t;
      }
    }
  }

  /** The scan's figures depend only on the table, not on the order its rows came in. */
  lemma ListedAggs(aggs: seq<TraderAgg>, rows: seq<DailyRow>, keys: seq<TraderDayKey>, table: map<TraderDayKey, TraderDay>,
      chain: int, day: int, w: Window)
    requires w != WAll && ListedBy(rows, keys, DailyAt(table))
    requires Elements(keys) == DaysSince(table, chain, WindowStartDay(day, W90d))
    requires AggregatesOf(aggs, rows, chain, day, w)
    ensures Distinct(Names(aggs)) && AggMap(aggs) == DailyAggs(table, chain, day, w)
  {
    hide IsAggOf, DailyAgg, TradersIn, DailyTraders, WindowStartDay, DaysSince, ListedBy, DailyAt;
    ListedTraders(rows, keys, table, chain, day, w);
    forall t | t in AggMap(aggs) ensures AggMap(aggs)[t] == DailyAgg(table, chain, day, w, t) {
      assert t in Names(aggs);
      var i :| 0 <= i < |aggs| && Names(aggs)[i] == t;
      ListedAgg(aggs[i], rows, keys, table, chain, day, w, t);
    }
  }

  // ---------------------------------------------------------------- the lifetime rollup

  ghost function LifetimeAt(table: map<TraderKey, TraderAllTime>): TraderKey -> LifetimeRow {
    (k: TraderKey) =>
      if k in table then LifetimeRow(k.chain, k.trader, table[k].volume, table[k].swapCount, table[k].actor)
      else LifetimeRow(k.chain, k.trader, 0, 0, false)
  }

  ghost function LifetimeKeys(table: map<TraderKey, TraderAllTime>, chain: int): set<TraderKey> {
    set k | k in table && k.chain == chain
  }

  lemma {:induction false} LifetimeNames(rows: seq<LifetimeRow>, chain: int)
    requires forall i :: 0 <= i < |rows| ==> rows[i].chain == chain
    ensures
      var aggs := AllTimeToWindowAggregates(rows, chain);
      |aggs| == |rows| && forall i :: 0 <= i < |rows| ==> aggs[i] == AllTimeAgg(rows[i])
  {
    if rows != [] { LifetimeNames(rows[..|rows| - 1], chain); }
  }

  lemma LifetimeDistinct(aggs: seq<TraderAgg>, rows: seq<LifetimeRow>, keys: seq<TraderKey>, table: map<TraderKey, TraderAllTime>, chain: int)
    requires ListedBy(rows, keys, LifetimeAt(table)) && Elements(keys) == LifetimeKeys(table, chain)
    requires |aggs| == |rows| && (forall i :: 0 <= i < |rows| ==> aggs[i] == AllTimeAgg(rows[i]))
    ensures Distinct(Names(aggs))
  {
    forall i | 0 <= i < |keys| ensures keys[i] == TraderKey(chain, keys[i].trader) { assert keys[i] in Elements(keys); }
    forall i, j | 0 <= i < j < |aggs| ensures Names(aggs)[i] != Names(aggs)[j] {
      assert keys[i] != keys[j];
    }
  }

  lemma LifetimeListed(rows: seq<LifetimeRow>, keys: seq<TraderKey>, table: map<TraderKey, TraderAllTime>, chain: int)
    requires ListedBy(rows, keys, LifetimeAt(table)) && Elements(keys) == LifetimeKeys(table, chain)
    ensures
      var aggs := AllTimeToWindowAggregates(rows, chain);
      Distinct(Names(aggs)) && AggMap(aggs) == LifetimeAggs(table, chain)
  {
    hide AggMap, Names, AllTimeToWindowAggregates;
    forall i | 0 <= i < |keys| ensures keys[i] == TraderKey(chain, keys[i].trader) && rows[i].chain == chain { assert keys[i] in Elements(keys); }
    LifetimeNames(rows, chain);
    var aggs := AllTimeToWindowAggregates(rows, chain);
    LifetimeDistinct(aggs, rows, keys, table, chain);
    forall t ensures t in AggMap(aggs) <==> t in LifetimeAggs(table, chain) { LifetimeMember(aggs, rows, keys, table, chain, t); }
    forall t | t in AggMap(aggs) ensures AggMap(aggs)[t] == LifetimeAggs(table, chain)[t] {
      LifetimeValue(aggs, rows, keys, table, chain, t);
    }
  }

  lemma LifetimeValue(aggs: seq<TraderAgg>, rows: seq<LifetimeRow>, keys: seq<TraderKey>, table: map<TraderKey, TraderAllTime>, chain: int, t: string)
    requires ListedBy(rows, keys, LifetimeAt(table)) && Elements(keys) == LifetimeKeys(table, chain)
    requires |aggs| == |rows| && (forall i :: 0 <= i < |rows| ==> aggs[i] == AllTimeAgg(rows[i])) && Distinct(Names(aggs))
    requires t in AggMap(aggs) && t in LifetimeAggs(table, chain)
    ensures AggMap(aggs)[t] == LifetimeAggs(table, chain)[t]
  {
    hide LifetimeTraders;
    assert t in Names(aggs);
    var i :| 0 <= i < |aggs| && Names(aggs)[i] == t;
    assert keys[i] in Elements(keys) && keys[i] == TraderKey(chain, t);
  }

  lemma LifetimeMember(aggs: seq<TraderAgg>, rows: seq<LifetimeRow>, keys: seq<TraderKey>, table: map<TraderKey, TraderAllTime>, chain: int, t: string)
    requires ListedBy(rows, keys, LifetimeAt(table)) && Elements(keys) == LifetimeKeys(table, chain)
    requires |aggs| == |rows| && (forall i :: 0 <= i < |rows| ==> aggs[i] == AllTimeAgg(rows[i])) && Distinct(Names(aggs))
    ensures t in AggMap(aggs) <==> t in LifetimeAggs(table, chain)
  {
    if t in AggMap(aggs) {
      assert t in Names(aggs);
      var i :| 0 <= i < |aggs| && Names(aggs)[i] == t;
      assert keys[i] in Elements(keys) && keys[i].trader == t && keys[i] == TraderKey(chain, t);
    }
    if t in LifetimeAggs(table, chain) {
      assert TraderKey(chain, t) in Elements(keys);
      var i :| 0 <= i < |keys| && keys[i] == TraderKey(chain, t);
      assert Names(aggs)[i] == t;
    }
  }
}
