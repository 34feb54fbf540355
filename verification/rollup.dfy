/**
 The daily rollup behind the trend charts: one entry per chart day, in
 date order, with the day's total streams and its number of distinct
 tracks.
 */
module Rollup {
  import opened Seqs
  import opened Dates
  import opened Ingest
  import opened Groups

  datatype DayStat = DayStat(date: Date, totalStreams: int, trackCount: nat)

  function TotalOf(s: DayStat): int { s.totalStreams }

  /** Calendar order is a total preorder on all date triples. */
  lemma DateOrder()
    ensures TotalPreorder(DateLe)
  {
  }

  /** The rows of one day, in table order. */
  function OnDay(rows: seq<Row>, d: Date): (r: seq<Row>)
    ensures forall x :: x in r <==> x in rows && x.date == d
  {
    Select(rows, (x: Row) => x.date == d)
  }

  /** The days present in the table, each once, in increasing date order. */
  function Days(rows: seq<Row>): (ds: seq<Date>)
    ensures forall d :: d in ds <==> HasKey(rows, DateOf, d)
    ensures forall i, j :: 0 <= i < j < |ds| ==> DateLt(ds[i], ds[j])
  {
    DateOrder();
    var keys := GroupKeys(rows, DateOf);
    var ds := Sort(keys, DateLe);
    NoDuplicatesSub(ds, keys);
    assert forall d :: d in ds <==> d in keys by {
      forall d ensures d in ds <==> d in keys {
        assert d in ds <==> d in multiset(ds);
      }
    }
    ds
  }

  /** One day's aggregates: the sum of its streams and how many distinct tracks charted. */
  function DayStatOf(rows: seq<Row>, d: Date): DayStat {
    DayStat(d, SumWhere(rows, DateOf, StreamsOf, d), |GroupKeys(OnDay(rows, d), TrackOf)|)
  }

  /**
   `groupby("Date").agg(sum, nunique).sort_values("Date")`: every date of
   the table appears exactly once, in increasing order, with at least one
   track and the sum of that day's streams.
   */
  function DailyRollup(rows: seq<Row>): (r: seq<DayStat>)
    ensures forall x :: x in rows ==> exists i :: 0 <= i < |r| && r[i].date == x.date
    ensures forall i :: 0 <= i < |r| ==> HasKey(rows, DateOf, r[i].date) && r[i].trackCount >= 1
    ensures forall i, j :: 0 <= i < j < |r| ==> DateLt(r[i].date, r[j].date)
    ensures forall i :: 0 <= i < |r| ==> r[i].totalStreams == SumWhere(rows, DateOf, StreamsOf, r[i].date)
  {
    var ds := Days(rows);
    var r := MapSeq(ds, d => DayStatOf(rows, d));
    RollupFacts(rows, ds, r);
    r
  }

  /** One entry per listed day, in the days' order, gives the rollup's promises. */
  lemma RollupFacts(rows: seq<Row>, ds: seq<Date>, r: seq<DayStat>)
    requires forall d :: d in ds <==> HasKey(rows, DateOf, d)
    requires forall i, j :: 0 <= i < j < |ds| ==> DateLt(ds[i], ds[j])
    requires |r| == |ds| && forall i :: 0 <= i < |r| ==> r[i] == DayStatOf(rows, ds[i])
    ensures forall x :: x in rows ==> exists i :: 0 <= i < |r| && r[i].date == x.date
    ensures forall i :: 0 <= i < |r| ==> HasKey(rows, DateOf, r[i].date) && r[i].trackCount >= 1
    ensures forall i, j :: 0 <= i < j < |r| ==> DateLt(r[i].date, r[j].date)
    ensures forall i :: 0 <= i < |r| ==> r[i].totalStreams == SumWhere(rows, DateOf, StreamsOf, r[i].date)
  {
    RollupCovers(rows, ds, r);
    forall i | 0 <= i < |r| ensures HasKey(rows, DateOf, r[i].date) && r[i].trackCount >= 1 {
      assert ds[i] in ds;
      DayHasTrack(rows, ds[i]);
    }
  }

  /** Every row's date has an entry when every present date is listed. */
  lemma RollupCovers(rows: seq<Row>, ds: seq<Date>, r: seq<DayStat>)
    requires forall d :: HasKey(rows, DateOf, d) ==> d in ds
    requires |r| == |ds| && forall i :: 0 <= i < |r| ==> r[i].date == ds[i]
    ensures forall x :: x in rows ==> exists i :: 0 <= i < |r| && r[i].date == x.date
  {
    forall x | x in rows ensures exists i :: 0 <= i < |r| && r[i].date == x.date {
      var k :| 0 <= k < |rows| && rows[k] == x;
      assert DateOf(rows[k]) == x.date;
      assert HasKey(rows, DateOf, x.date);
      var i :| 0 <= i < |ds| && ds[i] == x.date;
      assert r[i].date == x.date;
    }
  }

  lemma DayListed(rows: seq<Row>, x: Row)
    requires x in rows
    ensures x.date in Days(rows)
  {
    var k :| 0 <= k < |rows| && rows[k] == x;
    assert DateOf(rows[k]) == x.date;
  }

  /** A day present in the table has at least one track. */
  lemma DayHasTrack(rows: seq<Row>, d: Date)
    requires HasKey(rows, DateOf, d)
    ensures |GroupKeys(OnDay(rows, d), TrackOf)| >= 1
  {
    var k :| 0 <= k < |rows| && DateOf(rows[k]) == d;
    var day := OnDay(rows, d);
    assert rows[k] in day;
    var j :| 0 <= j < |day| && day[j] == rows[k];
    assert TrackOf(day[j]) == rows[k].track;
    assert rows[k].track in GroupKeys(day, TrackOf);
  }

  /** The daily totals add up to the streams of the whole table. */
  lemma DailyTotalsConserve(rows: seq<Row>)
    ensures SumOf(DailyRollup(rows), TotalOf) == SumOf(rows, StreamsOf)
  {
    var ds := Days(rows);
    DaysCover(rows);
    GroupTotalsConserve(rows, DateOf, StreamsOf, ds);
    var sums := MapSeq(ds, k => SumWhere(rows, DateOf, StreamsOf, k));
    RollupTotals(rows, sums);
    SumOfPointwise(DailyRollup(rows), TotalOf, sums, x => x);
  }

  lemma DaysCover(rows: seq<Row>)
    ensures NoDuplicates(Days(rows))
    ensures forall x :: x in rows ==> DateOf(x) in Days(rows)
  {
    var ds := Days(rows);
    forall i, j | 0 <= i < j < |ds| ensures ds[i] != ds[j] {
      assert DateLt(ds[i], ds[j]);
    }
    forall x | x in rows ensures DateOf(x) in ds {
      DayListed(rows, x);
    }
  }

  lemma RollupTotals(rows: seq<Row>, sums: seq<int>)
    requires sums == MapSeq(Days(rows), k => SumWhere(rows, DateOf, StreamsOf, k))
    ensures |DailyRollup(rows)| == |sums|
    ensures forall i :: 0 <= i < |sums| ==> TotalOf(DailyRollup(rows)[i]) == sums[i]
  {
    var r := DailyRollup(rows);
    assert r == MapSeq(Days(rows), d => DayStatOf(rows, d));
  }

  /** A duplicate-free sequence has as many elements as its set of values. */
  lemma {:induction false} DistinctCardinality<T>(ks: seq<T>)
    requires NoDuplicates(ks)
    ensures |set k | k in ks| == |ks|
  {
    if |ks| > 0 {
      var rest := ks[1..];
      assert NoDuplicates(rest) by {
        assert forall i :: 0 <= i < |rest| ==> rest[i] == ks[i + 1];
      }
      DistinctCardinality(rest);
      assert ks[0] !in rest;
      assert (set k | k in ks) == (set k | k in rest) + {ks[0]};
    }
  }

  /** A duplicate-free listing of a set has as many elements as the set. */
  lemma ListedSetSize<T>(ks: seq<T>, s: set<T>)
    requires NoDuplicates(ks)
    requires forall k :: k in ks <==> k in s
    ensures |s| == |ks|
  {
    DistinctCardinality(ks);
    assert (set k | k in ks) == s;
  }

  /** A day's track count is the number of distinct track names charting that day. */
  lemma DayTrackCount(rows: seq<Row>, i: int)
    requires 0 <= i < |DailyRollup(rows)|
    ensures var s := DailyRollup(rows)[i];
      s.trackCount == |set x | x in rows && x.date == s.date :: x.track|
  {
    var s := DailyRollup(rows)[i];
    TrackSet(rows, s.date);
  }

  lemma TrackSet(rows: seq<Row>, d: Date)
    ensures |GroupKeys(OnDay(rows, d), TrackOf)| == |set x | x in rows && x.date == d :: x.track|
  {
    var keys := GroupKeys(OnDay(rows, d), TrackOf);
    KeysAreTracks(rows, d, keys);
    TracksAreKeys(rows, d, keys);
    ListedSetSize(keys, set x | x in rows && x.date == d :: x.track);
  }

  /** Each group key of a day is the track of one of that day's rows. */
  lemma KeysAreTracks(rows: seq<Row>, d: Date, keys: seq<string>)
    requires keys == GroupKeys(OnDay(rows, d), TrackOf)
    ensures forall t :: t in keys ==> t in (set x | x in rows && x.date == d :: x.track)
  {
    var day := OnDay(rows, d);
    forall t | t in keys ensures t in (set x | x in rows && x.date == d :: x.track) {
      var j :| 0 <= j < |day| && TrackOf(day[j]) == t;
      assert day[j] in day;
    }
  }

  /** The track of each row of a day is one of that day's group keys. */
  lemma TracksAreKeys(rows: seq<Row>, d: Date, keys: seq<string>)
    requires keys == GroupKeys(OnDay(rows, d), TrackOf)
    ensures forall x :: x in rows && x.date == d ==> x.track in keys
  {
    var day := OnDay(rows, d);
    forall x | x in rows && x.date == d ensures x.track in keys {
      assert x in day;
      var j :| 0 <= j < |day| && day[j] == x;
      assert TrackOf(day[j]) == x.track;
    }
  }
}
