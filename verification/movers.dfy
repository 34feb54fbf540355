/**
 The movers table: in date order, every appearance of a track after its
 first gets a rank change (previous position minus current position, so
 positive means it climbed); the changes are grouped by (track, artist)
 into the best improvement and the worst drop, and the ten best
 improvements are listed.
 */
module Movers {
  import opened Wrappers
  import opened Seqs
  import opened Dates
  import opened Ingest
  import opened Groups
  import opened TopLists

  // ---------------------------------------------------------------------
  // Date order
  // ---------------------------------------------------------------------

  predicate DateFirst(a: Row, b: Row) {
    DateLe(a.date, b.date)
  }

  lemma DateFirstOrder()
    ensures TotalPreorder(DateFirst)
  {
  }

  /**
   `sort_values("Date")`: one admissible date order of the rows. Rows of
   the same day may come in any order; this one keeps table order.
   */
  function ByDate(rows: seq<Row>): (s: seq<Row>)
    ensures Sorted(s, DateFirst)
    ensures multiset(s) == multiset(rows)
  {
    DateFirstOrder();
    Sort(rows, DateFirst)
  }

  // ---------------------------------------------------------------------
  // Rank changes
  // ---------------------------------------------------------------------

  /** No row in `s[lo..hi]` is of track `t`. */
  predicate Absent(s: seq<Row>, lo: int, hi: int, t: string)
    requires 0 <= lo && hi <= |s|
  {
    forall j :: lo <= j < hi ==> s[j].track != t
  }

  /** The index of the latest row before `i` whose track is `t`, if any. */
  function LastSeen(s: seq<Row>, i: nat, t: string): (r: Option<nat>)
    requires i <= |s|
    ensures r.Some? ==> r.value < i && s[r.value].track == t && Absent(s, r.value + 1, i, t)
    ensures r.None? <==> Absent(s, 0, i, t)
  {
    if i == 0 then None
    else if s[i - 1].track == t then Some(i - 1)
    else LastSeen(s, i - 1, t)
  }

  /**
   `prev_rank - Position` for row `i`, where `prev_rank` is the position of
   the same track's previous row (`groupby("Track").shift(1)`); a track's
   first row has none.
   */
  function RankChange(s: seq<Row>, i: nat): Option<int>
    requires i < |s|
  {
    match LastSeen(s, i, s[i].track)
    case None => None
    case Some(j) => Some(s[j].position - s[i].position)
  }

  /**
   A row has no rank change exactly when it is its track's first row; a
   later row's change is the previous same-track row's position minus its
   own, so a positive change is a climb.
   */
  lemma RankChangeMeaning(s: seq<Row>, i: nat)
    requires i < |s|
    ensures RankChange(s, i).None? <==> forall j :: 0 <= j < i ==> s[j].track != s[i].track
    ensures RankChange(s, i).Some? ==>
              exists j :: 0 <= j < i && s[j].track == s[i].track
                && (forall k :: j < k < i ==> s[k].track != s[i].track)
                && RankChange(s, i).value == s[j].position - s[i].position
  {
    var l := LastSeen(s, i, s[i].track);
    if l.Some? {
      var j := l.value;
      assert Absent(s, j + 1, i, s[i].track);
    }
  }

  function RankChanges(s: seq<Row>): (cs: seq<Option<int>>)
    ensures |cs| == |s|
    ensures forall i :: 0 <= i < |s| ==> cs[i] == RankChange(s, i)
  {
    seq(|s|, i requires 0 <= i < |s| => RankChange(s, i))
  }

  /**
   One pass over the date-ordered rows remembering each track's latest
   position, as the grouped shift computes it: the result is the rank
   change of every row.
   */
  method ComputeRankChanges(s: seq<Row>) returns (cs: seq<Option<int>>)
    ensures cs == RankChanges(s)
  {
    var last: map<string, int> := map[];
    cs := [];
    var i := 0;
    while i < |s|
      invariant 0 <= i <= |s|
      invariant |cs| == i
      invariant forall k :: 0 <= k < i ==> cs[k] == RankChange(s, k)
      invariant Remembers(s, i, last)
    {
      var x := s[i];
      var c := if x.track in last then Some(last[x.track] - x.position) else None;
      assert c == RankChange(s, i);
      RemembersStep(s, i, last);
      cs := cs + [c];
      last := last[x.track := x.position];
      i := i + 1;
    }
  }

  /** `last` maps exactly the tracks seen in `s[..i]` to the position of their latest row. */
  ghost predicate Remembers(s: seq<Row>, i: nat, last: map<string, int>)
    requires i <= |s|
  {
    forall t :: (t in last <==> LastSeen(s, i, t).Some?)
      && (t in last ==> last[t] == s[LastSeen(s, i, t).value].position)
  }

  /** Recording row `i` keeps the map in step with the rows seen so far. */
  lemma RemembersStep(s: seq<Row>, i: nat, last: map<string, int>)
    requires i < |s| && Remembers(s, i, last)
    ensures Remembers(s, i + 1, last[s[i].track := s[i].position])
  {
    var last' := last[s[i].track := s[i].position];
    forall t ensures (t in last' <==> LastSeen(s, i + 1, t).Some?)
      && (t in last' ==> last'[t] == s[LastSeen(s, i + 1, t).value].position)
    {
      if t != s[i].track {
        assert LastSeen(s, i + 1, t) == LastSeen(s, i, t);
      }
    }
  }

  // ---------------------------------------------------------------------
  // Grouping the changes
  // ---------------------------------------------------------------------

  /** A row that has a rank change (`dropna(subset=["rank_change"])`). */
  datatype Delta = Delta(track: string, artist: string, change: int)

  function DeltaPair(d: Delta): (string, string) { (d.track, d.artist) }
  function ChangeOf(d: Delta): int { d.change }

  /** Row `i` has change `d.change` and `d`'s track and artist. */
  predicate DeltaAt(s: seq<Row>, cs: seq<Option<int>>, i: int, d: Delta)
    requires |cs| == |s|
  {
    0 <= i < |s| && cs[i] == Some(d.change) && s[i].track == d.track && s[i].artist == d.artist
  }

  /** The rows with a rank change, in order, paired with their change. */
  function Deltas(s: seq<Row>, cs: seq<Option<int>>): (ds: seq<Delta>)
    requires |cs| == |s|
    ensures forall d :: d in ds <==> exists i :: DeltaAt(s, cs, i, d)
  {
    if |s| == 0 then []
    else
      var rest := Deltas(s[1..], cs[1..]);
      assert forall i :: 1 <= i < |s| ==> s[i] == s[1..][i - 1] && cs[i] == cs[1..][i - 1];
      assert forall d :: d in rest ==> exists i :: DeltaAt(s, cs, i, d) by {
        forall d | d in rest ensures exists i :: DeltaAt(s, cs, i, d) {
          var i :| DeltaAt(s[1..], cs[1..], i, d);
          assert DeltaAt(s, cs, i + 1, d);
        }
      }
      assert forall d :: (exists i :: DeltaAt(s, cs, i, d)) ==> (cs[0] == Some(d.change) && s[0].track == d.track && s[0].artist == d.artist) || d in rest by {
        forall d | exists i :: DeltaAt(s, cs, i, d)
          ensures (cs[0] == Some(d.change) && s[0].track == d.track && s[0].artist == d.artist) || d in rest
        {
          var i :| DeltaAt(s, cs, i, d);
          if i > 0 {
            assert DeltaAt(s[1..], cs[1..], i - 1, d);
          }
        }
      }
      match cs[0]
      case Some(c) =>
        assert DeltaAt(s, cs, 0, Delta(s[0].track, s[0].artist, c));
        [Delta(s[0].track, s[0].artist, c)] + rest
      case None => rest
  }

  /** One (track, artist) group of changes: its largest and smallest change. */
  datatype Mover = Mover(track: string, artist: string, bestImprovement: int, worstDrop: int)

  /**
   `m` aggregates its own (track, artist) group of changes: the group is
   non-empty, the best improvement is the largest change in it and the
   worst drop the smallest.
   */
  predicate MoverOf(ds: seq<Delta>, m: Mover) {
    var p := (m.track, m.artist);
    && HasKey(ds, DeltaPair, p)
    && MaxWhere(ds, DeltaPair, ChangeOf, p) == Some(m.bestImprovement)
    && MinWhere(ds, DeltaPair, ChangeOf, p) == Some(m.worstDrop)
  }

  /** The aggregate of the non-empty group `p`. */
  function MoverFor(ds: seq<Delta>, p: (string, string)): (m: Mover)
    requires HasKey(ds, DeltaPair, p)
    ensures MoverOf(ds, m) && m.bestImprovement >= m.worstDrop && (m.track, m.artist) == p
  {
    MaxAtLeastMin(ds, DeltaPair, ChangeOf, p);
    Mover(p.0, p.1, MaxWhere(ds, DeltaPair, ChangeOf, p).value, MinWhere(ds, DeltaPair, ChangeOf, p).value)
  }

  function MoverPair(m: Mover): (string, string) { (m.track, m.artist) }

  /**
   `groupby(["Track", "Artist"]).agg(max, min)` over the changes: one
   aggregate per group of changes, each group exactly once.
   */
  function MoverStats(ds: seq<Delta>): (ms: seq<Mover>)
    ensures |ms| == |GroupKeys(ds, DeltaPair)|
    ensures forall m :: m in ms ==> MoverOf(ds, m) && m.bestImprovement >= m.worstDrop
    ensures forall i, j :: 0 <= i < j < |ms| ==> (ms[i].track, ms[i].artist) != (ms[j].track, ms[j].artist)
    ensures forall p :: HasKey(ds, DeltaPair, p) <==> exists i :: 0 <= i < |ms| && (ms[i].track, ms[i].artist) == p
  {
    var ks := GroupKeys(ds, DeltaPair);
    var ms := seq(|ks|, i requires 0 <= i < |ks| => assert ks[i] in ks; MoverFor(ds, ks[i]));
    MoversCoverGroups(ds, ks, ms);
    ms
  }

  /** One aggregate per group, in group order, covers exactly the groups, each once. */
  lemma MoversCoverGroups(ds: seq<Delta>, ks: seq<(string, string)>, ms: seq<Mover>)
    requires NoDuplicates(ks)
    requires forall p :: p in ks <==> HasKey(ds, DeltaPair, p)
    requires |ms| == |ks|
    requires forall i :: 0 <= i < |ms| ==> MoverOf(ds, ms[i]) && ms[i].bestImprovement >= ms[i].worstDrop
    requires forall i :: 0 <= i < |ms| ==> (ms[i].track, ms[i].artist) == ks[i]
    ensures forall m :: m in ms ==> MoverOf(ds, m) && m.bestImprovement >= m.worstDrop
    ensures forall i, j :: 0 <= i < j < |ms| ==> (ms[i].track, ms[i].artist) != (ms[j].track, ms[j].artist)
    ensures forall p :: HasKey(ds, DeltaPair, p) <==> exists i :: 0 <= i < |ms| && (ms[i].track, ms[i].artist) == p
  {
    forall p | p in ks ensures exists i :: 0 <= i < |ms| && (ms[i].track, ms[i].artist) == p {
      var i :| 0 <= i < |ks| && ks[i] == p;
      assert (ms[i].track, ms[i].artist) == p;
    }
    forall p | exists i :: 0 <= i < |ms| && (ms[i].track, ms[i].artist) == p ensures p in ks {
      var i :| 0 <= i < |ms| && (ms[i].track, ms[i].artist) == p;
      assert ks[i] in ks;
    }
  }

  /** Ranking by best improvement, largest first. */
  predicate MoreImproved(a: Mover, b: Mover) {
    a.bestImprovement >= b.bestImprovement
  }

  lemma MoreImprovedOrder()
    ensures TotalPreorder(MoreImproved)
  {
  }

  /**
   The ten groups of changes with the best improvements (all of them when
   there are fewer): each entry is its own group's aggregate, no group
   appears twice, improvements do not increase down the list, and no group
   left out improved more than a group kept.
   */
  function TopMovers(ds: seq<Delta>): (r: seq<Mover>)
    ensures |r| == if |GroupKeys(ds, DeltaPair)| < ListLength then |GroupKeys(ds, DeltaPair)| else ListLength
    ensures forall i :: 0 <= i < |r| ==> MoverOf(ds, r[i]) && r[i].bestImprovement >= r[i].worstDrop
    ensures forall i, j :: 0 <= i < j < |r| ==> (r[i].track, r[i].artist) != (r[j].track, r[j].artist)
    ensures forall i, j :: 0 <= i < j < |r| ==> r[i].bestImprovement >= r[j].bestImprovement
    ensures forall m :: m in MoverStats(ds) && m !in r ==>
              forall i :: 0 <= i < |r| ==> r[i].bestImprovement >= m.bestImprovement
  {
    var ms := MoverStats(ds);
    var r := TopImproved(ms);
    KeptMovers(ds, ms, r);
    r
  }

  /** Entries taken from the group aggregates are group aggregates, no group twice. */
  lemma KeptMovers(ds: seq<Delta>, ms: seq<Mover>, r: seq<Mover>)
    requires forall m :: m in ms ==> MoverOf(ds, m) && m.bestImprovement >= m.worstDrop
    requires forall i, j :: 0 <= i < j < |ms| ==> (ms[i].track, ms[i].artist) != (ms[j].track, ms[j].artist)
    requires multiset(r) <= multiset(ms)
    ensures forall i :: 0 <= i < |r| ==> MoverOf(ds, r[i]) && r[i].bestImprovement >= r[i].worstDrop
    ensures forall i, j :: 0 <= i < j < |r| ==> (r[i].track, r[i].artist) != (r[j].track, r[j].artist)
  {
    Kept(ms, r);
    DistinctKeysSub(ms, r, MoverPair);
  }

  /** `sort_values("best_improvement", ascending=False).head(10)` over the groups. */
  function TopImproved(ms: seq<Mover>): (r: seq<Mover>)
    ensures |r| == if |ms| < ListLength then |ms| else ListLength
    ensures multiset(r) <= multiset(ms)
    ensures forall i, j :: 0 <= i < j < |r| ==> r[i].bestImprovement >= r[j].bestImprovement
    ensures forall m :: m in ms && m !in r ==>
              forall i :: 0 <= i < |r| ==> r[i].bestImprovement >= m.bestImprovement
  {
    MoreImprovedOrder();
    TopN(ms, MoreImproved, ListLength)
  }

  /** The rows with a rank change, for rows in any order. */
  function ChangesOf(rows: seq<Row>): seq<Delta> {
    var s := ByDate(rows);
    Deltas(s, RankChanges(s))
  }

  /** The movers table for rows already in date order. */
  function MoversOf(s: seq<Row>): seq<Mover> {
    TopMovers(Deltas(s, RankChanges(s)))
  }

  /**
   The movers section: sort by date, compute every row's rank change in
   one pass, group the changes and keep the ten best improvements.
   */
  method Movers(rows: seq<Row>) returns (r: seq<Mover>)
    ensures r == MoversOf(ByDate(rows))
    ensures var groups := |GroupKeys(ChangesOf(rows), DeltaPair)|;
      |r| == if groups < ListLength then groups else ListLength
    ensures forall i :: 0 <= i < |r| ==> MoverOf(ChangesOf(rows), r[i]) && r[i].bestImprovement >= r[i].worstDrop
    ensures forall i, j :: 0 <= i < j < |r| ==> (r[i].track, r[i].artist) != (r[j].track, r[j].artist)
    ensures forall i, j :: 0 <= i < j < |r| ==> r[i].bestImprovement >= r[j].bestImprovement
  {
    var s := ByDate(rows);
    var cs := ComputeRankChanges(s);
    r := TopMovers(Deltas(s, cs));
  }

  /**
   One track charting at 10, then 4, then 12 climbs 6 places and then
   drops 8: its movers entry has best improvement 6 and worst drop -8.
   */
  lemma ClimbThenDrop(s: seq<Row>, t: string, a: string)
    requires |s| == 3
    requires forall i :: 0 <= i < 3 ==> s[i].track == t && s[i].artist == a
    requires s[0].position == 10 && s[1].position == 4 && s[2].position == 12
    ensures RankChanges(s) == [None, Some(6), Some(-8)]
    ensures MoversOf(s) == [Mover(t, a, 6, -8)]
  {
    var cs := RankChanges(s);
    assert LastSeen(s, 0, t) == None;
    assert LastSeen(s, 1, t) == Some(0);
    assert LastSeen(s, 2, t) == Some(1);
    assert cs == [None, Some(6), Some(-8)];
    var ds := Deltas(s, cs);
    assert Deltas(s[2..], cs[2..]) == [Delta(t, a, -8)];
    assert s[1..][1..] == s[2..] && cs[1..][1..] == cs[2..];
    assert Deltas(s[1..], cs[1..]) == [Delta(t, a, 6), Delta(t, a, -8)];
    assert ds == [Delta(t, a, 6), Delta(t, a, -8)];
    var ms := MoverStats(ds);
    OneGroup(ds, t, a);
    MoreImprovedOrder();
    var r := TopN(ms, MoreImproved, ListLength);
    assert |r| == 1 && r[0] in multiset(r);
  }

  lemma OneGroup(ds: seq<Delta>, t: string, a: string)
    requires ds == [Delta(t, a, 6), Delta(t, a, -8)]
    ensures MoverStats(ds) == [Mover(t, a, 6, -8)]
  {
    var p := (t, a);
    assert DeltaPair(ds[0]) == p;
    forall q ensures HasKey(ds, DeltaPair, q) <==> q == p {
      if HasKey(ds, DeltaPair, q) {
        var i :| 0 <= i < |ds| && DeltaPair(ds[i]) == q;
        assert i == 0 || i == 1;
      }
    }
    OnlyKey(GroupKeys(ds, DeltaPair), p);
    var hi := MaxWhere(ds, DeltaPair, ChangeOf, p);
    var lo := MinWhere(ds, DeltaPair, ChangeOf, p);
    assert hi.value >= ChangeOf(ds[0]) && lo.value <= ChangeOf(ds[1]);
    var i :| 0 <= i < |ds| && DeltaPair(ds[i]) == p && ChangeOf(ds[i]) == hi.value;
    var j :| 0 <= j < |ds| && DeltaPair(ds[j]) == p && ChangeOf(ds[j]) == lo.value;
    assert i == 0 || i == 1;
    assert j == 0 || j == 1;
  }

  /** A duplicate-free sequence holding exactly one value is that value alone. */
  lemma OnlyKey<K>(ks: seq<K>, k: K)
    requires NoDuplicates(ks)
    requires forall x :: x in ks <==> x == k
    ensures ks == [k]
  {
    assert k in ks;
    RepeatsWhenLong(ks, k);
  }

  /** Two or more copies of one value are a duplicate. */
  lemma RepeatsWhenLong<K>(ks: seq<K>, k: K)
    requires forall x :: x in ks ==> x == k
    ensures |ks| > 1 ==> !NoDuplicates(ks)
  {
    if |ks| > 1 {
      assert ks[0] in ks && ks[1] in ks;
    }
  }

  /**
   A group's changes come only from later appearances: a track that
   charts once in the window has no change and never appears in the
   movers table.
   */
  lemma SingleAppearanceNoMover(s: seq<Row>, t: string)
    requires forall i, j :: 0 <= i < j < |s| && s[i].track == t ==> s[j].track != t
    ensures forall m :: m in MoversOf(s) ==> m.track != t
  {
    var cs := RankChanges(s);
    var ds := Deltas(s, cs);
    forall m | m in MoversOf(s) ensures m.track != t {
      var i :| 0 <= i < |MoversOf(s)| && MoversOf(s)[i] == m;
      assert MoverOf(ds, m);
      var k :| 0 <= k < |ds| && DeltaPair(ds[k]) == (m.track, m.artist);
      assert ds[k] in ds;
      var j :| DeltaAt(s, cs, j, ds[k]);
      assert RankChange(s, j).Some?;
      RankChangeMeaning(s, j);
    }
  }
}
