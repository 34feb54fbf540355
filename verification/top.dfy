/**
 The ranked lists of the dashboard: the top ten tracks and artists by
 total streams, and the highlights table of (track, artist) pairs by
 total streams with the best chart position, then the pair itself, as
 tie-breaks.
 */
module TopLists {
  import opened Wrappers
  import opened Seqs
  import opened Ingest
  import opened Groups
  import opened Text

  const ListLength: nat := 10

  // ---------------------------------------------------------------------
  // Top tracks and top artists
  // ---------------------------------------------------------------------

  /** One group of `groupby(name).agg(total_streams=("Streams", "sum"))`. */
  datatype Total = Total(name: string, streams: int)

  function NameOf(t: Total): string { t.name }
  function StreamsTotal(t: Total): int { t.streams }

  /** Every name of the chosen column with its stream total, each name once. */
  function Totals(rows: seq<Row>, key: Row -> string): (ts: seq<Total>)
    ensures |ts| == |GroupKeys(rows, key)|
    ensures NoDuplicates(MapSeq(ts, NameOf))
    ensures forall k :: HasKey(rows, key, k) <==> exists i :: 0 <= i < |ts| && ts[i].name == k
    ensures forall t :: t in ts ==> t.streams == SumWhere(rows, key, StreamsOf, t.name)
  {
    var ks := GroupKeys(rows, key);
    var ts := MapSeq(ks, k => Total(k, SumWhere(rows, key, StreamsOf, k)));
    assert MapSeq(ts, NameOf) == ks;
    assert forall k :: k in ks <==> exists i :: 0 <= i < |ts| && ts[i].name == k by {
      forall k | k in ks ensures exists i :: 0 <= i < |ts| && ts[i].name == k {
        var i :| 0 <= i < |ks| && ks[i] == k;
        assert ts[i].name == k;
      }
    }
    ts
  }

  /** Ranking by total streams, largest first (`sort_values(ascending=False)`). */
  predicate MoreStreams(a: Total, b: Total) {
    a.streams >= b.streams
  }

  lemma MoreStreamsOrder()
    ensures TotalPreorder(MoreStreams)
  {
  }

  /** A total that belongs to the list of totals and is ranked by it. */
  predicate Listed(rows: seq<Row>, key: Row -> string, t: Total) {
    HasKey(rows, key, t.name) && t.streams == SumWhere(rows, key, StreamsOf, t.name)
  }

  /**
   `groupby(key).sum().sort_values(desc).head(10)`: at most ten names,
   each a real group with its true total, no name twice, in
   non-increasing order of streams, and no name left out has more streams
   than a name kept. Ties are broken in no particular order.
   */
  function TopBy(rows: seq<Row>, key: Row -> string): (r: seq<Total>)
    ensures |r| == if |GroupKeys(rows, key)| < ListLength then |GroupKeys(rows, key)| else ListLength
    ensures forall i :: 0 <= i < |r| ==> Listed(rows, key, r[i])
    ensures forall i, j :: 0 <= i < j < |r| ==> r[i].name != r[j].name
    ensures forall i, j :: 0 <= i < j < |r| ==> r[i].streams >= r[j].streams
    ensures forall k :: HasKey(rows, key, k) && (forall i :: 0 <= i < |r| ==> r[i].name != k) ==>
              forall i :: 0 <= i < |r| ==> r[i].streams >= SumWhere(rows, key, StreamsOf, k)
  {
    var ts := Totals(rows, key);
    var r := TopStreams(ts);
    TopByFacts(rows, key, ts, r);
    r
  }

  /** `sort_values(ascending=False).head(10)` over the totals. */
  function TopStreams(ts: seq<Total>): (r: seq<Total>)
    ensures |r| == if |ts| < ListLength then |ts| else ListLength
    ensures multiset(r) <= multiset(ts)
    ensures forall i, j :: 0 <= i < j < |r| ==> r[i].streams >= r[j].streams
    ensures forall x :: x in ts && x !in r ==> forall i :: 0 <= i < |r| ==> r[i].streams >= x.streams
  {
    MoreStreamsOrder();
    TopN(ts, MoreStreams, ListLength)
  }

  lemma TopByFacts(rows: seq<Row>, key: Row -> string, ts: seq<Total>, r: seq<Total>)
    requires ts == Totals(rows, key)
    requires multiset(r) <= multiset(ts)
    requires forall x :: x in ts && x !in r ==> forall i :: 0 <= i < |r| ==> r[i].streams >= x.streams
    ensures forall i :: 0 <= i < |r| ==> Listed(rows, key, r[i])
    ensures forall i, j :: 0 <= i < j < |r| ==> r[i].name != r[j].name
    ensures forall k :: HasKey(rows, key, k) && (forall i :: 0 <= i < |r| ==> r[i].name != k) ==>
              forall i :: 0 <= i < |r| ==> r[i].streams >= SumWhere(rows, key, StreamsOf, k)
  {
    KeptAreTotals(rows, key, ts, r);
    KeptNamesDistinct(ts, r);
    forall k | HasKey(rows, key, k) && (forall i :: 0 <= i < |r| ==> r[i].name != k)
      ensures forall i :: 0 <= i < |r| ==> r[i].streams >= SumWhere(rows, key, StreamsOf, k)
    {
      var a :| 0 <= a < |ts| && ts[a].name == k;
      assert ts[a] in ts;
      assert ts[a] !in r;
    }
  }

  lemma KeptAreTotals(rows: seq<Row>, key: Row -> string, ts: seq<Total>, r: seq<Total>)
    requires ts == Totals(rows, key)
    requires multiset(r) <= multiset(ts)
    ensures forall i :: 0 <= i < |r| ==> r[i] in ts && Listed(rows, key, r[i])
  {
    forall i | 0 <= i < |r| ensures r[i] in ts && Listed(rows, key, r[i]) {
      assert r[i] in multiset(r);
      var j :| 0 <= j < |ts| && ts[j] == r[i];
      assert HasKey(rows, key, ts[j].name);
    }
  }

  /** Entries taken from a list with distinct names have distinct names. */
  lemma KeptNamesDistinct(ts: seq<Total>, r: seq<Total>)
    requires NoDuplicates(MapSeq(ts, NameOf))
    requires multiset(r) <= multiset(ts)
    ensures forall i, j :: 0 <= i < j < |r| ==> r[i].name != r[j].name
  {
    DistinctNames(ts);
    NoDuplicatesSub(r, ts);
    forall i, j | 0 <= i < j < |r| ensures r[i].name != r[j].name {
      assert r[i] in multiset(r) && r[j] in multiset(r);
      var a :| 0 <= a < |ts| && ts[a] == r[i];
      var b :| 0 <= b < |ts| && ts[b] == r[j];
      assert MapSeq(ts, NameOf)[a] == r[i].name && MapSeq(ts, NameOf)[b] == r[j].name;
    }
  }

  /** Entries with distinct names are distinct entries. */
  lemma DistinctNames(ts: seq<Total>)
    requires NoDuplicates(MapSeq(ts, NameOf))
    ensures NoDuplicates(ts)
  {
    forall i, j | 0 <= i < j < |ts| ensures ts[i] != ts[j] {
      assert MapSeq(ts, NameOf)[i] != MapSeq(ts, NameOf)[j];
    }
  }

  /** The "Top 10 Tracks" panel. */
  function TopTracks(rows: seq<Row>): seq<Total> {
    TopBy(rows, TrackOf)
  }

  /** The "Top 10 Artists" panel. */
  function TopArtists(rows: seq<Row>): seq<Total> {
    TopBy(rows, ArtistOf)
  }

  /** The totals of all groups add up to the streams of the whole table. */
  lemma TotalsConserve(rows: seq<Row>, key: Row -> string)
    ensures SumOf(Totals(rows, key), StreamsTotal) == SumOf(rows, StreamsOf)
  {
    var ks := GroupKeys(rows, key);
    var sums := MapSeq(ks, k => SumWhere(rows, key, StreamsOf, k));
    GroupTotalsAddUp(rows, key, StreamsOf);
    var ts := Totals(rows, key);
    assert ts == MapSeq(ks, k => Total(k, SumWhere(rows, key, StreamsOf, k)));
    SumOfPointwise(ts, StreamsTotal, sums, x => x);
  }

  // ---------------------------------------------------------------------
  // Highlights
  // ---------------------------------------------------------------------

  /** One (track, artist) group with its total streams and best (smallest) position. */
  datatype Highlight = Highlight(track: string, artist: string, totalStreams: int, bestRank: int)

  function PairOf(r: Row): (string, string) { (r.track, r.artist) }
  function HighlightPair(h: Highlight): (string, string) { (h.track, h.artist) }

  /** Every (track, artist) pair with its total streams and its best position. */
  function PairStats(rows: seq<Row>): (hs: seq<Highlight>)
    ensures |hs| == |GroupKeys(rows, PairOf)|
    ensures forall h :: h in hs ==> HighlightOf(rows, h)
    ensures forall i, j :: 0 <= i < j < |hs| ==> (hs[i].track, hs[i].artist) != (hs[j].track, hs[j].artist)
    ensures forall p :: HasKey(rows, PairOf, p) <==> exists i :: 0 <= i < |hs| && (hs[i].track, hs[i].artist) == p
  {
    var ks := GroupKeys(rows, PairOf);
    var hs := seq(|ks|, i requires 0 <= i < |ks| => assert ks[i] in ks; HighlightFor(rows, ks[i]));
    PairsCover(rows, ks, hs);
    hs
  }

  /** The aggregate of the non-empty group `p`. */
  function HighlightFor(rows: seq<Row>, p: (string, string)): (h: Highlight)
    requires HasKey(rows, PairOf, p)
    ensures HighlightOf(rows, h) && (h.track, h.artist) == p
  {
    Highlight(p.0, p.1, SumWhere(rows, PairOf, StreamsOf, p), MinWhere(rows, PairOf, PositionOf, p).value)
  }

  /** One aggregate per group, in group order, covers exactly the groups, each once. */
  lemma PairsCover(rows: seq<Row>, ks: seq<(string, string)>, hs: seq<Highlight>)
    requires NoDuplicates(ks)
    requires forall p :: p in ks <==> HasKey(rows, PairOf, p)
    requires |hs| == |ks|
    requires forall i :: 0 <= i < |hs| ==> HighlightOf(rows, hs[i]) && (hs[i].track, hs[i].artist) == ks[i]
    ensures forall h :: h in hs ==> HighlightOf(rows, h)
    ensures forall i, j :: 0 <= i < j < |hs| ==> (hs[i].track, hs[i].artist) != (hs[j].track, hs[j].artist)
    ensures forall p :: HasKey(rows, PairOf, p) <==> exists i :: 0 <= i < |hs| && (hs[i].track, hs[i].artist) == p
  {
    forall p | p in ks ensures exists i :: 0 <= i < |hs| && (hs[i].track, hs[i].artist) == p {
      var i :| 0 <= i < |ks| && ks[i] == p;
      assert (hs[i].track, hs[i].artist) == p;
    }
    forall p | exists i :: 0 <= i < |hs| && (hs[i].track, hs[i].artist) == p ensures p in ks {
      var i :| 0 <= i < |hs| && (hs[i].track, hs[i].artist) == p;
      assert ks[i] in ks;
    }
  }

  /**
   `h` is the aggregate of its own (track, artist) group: the group is
   non-empty, its streams add up to `totalStreams`, and `bestRank` is a
   position some row of the group holds and no row of it beats.
   */
  predicate HighlightOf(rows: seq<Row>, h: Highlight) {
    var p := (h.track, h.artist);
    && HasKey(rows, PairOf, p)
    && h.totalStreams == SumWhere(rows, PairOf, StreamsOf, p)
    && (exists i :: 0 <= i < |rows| && PairOf(rows[i]) == p && rows[i].position == h.bestRank)
    && (forall i :: 0 <= i < |rows| && PairOf(rows[i]) == p ==> h.bestRank <= rows[i].position)
  }

  /**
   `(a.track, a.artist) <= (b.track, b.artist)`, compared as Python compares
   tuples of strings: the order in which `groupby` lists the groups.
   */
  predicate PairLe(a: Highlight, b: Highlight) {
    if a.track == b.track then StrLe(a.artist, b.artist) else StrLe(a.track, b.track)
  }

  /**
   More total streams first; among equal totals, the better (smaller) best
   position first; among those, the pair `groupby` lists first, since a
   sort on several columns is stable and keeps the group order.
   */
  predicate HighlightBefore(a: Highlight, b: Highlight) {
    || a.totalStreams > b.totalStreams
    || (a.totalStreams == b.totalStreams && a.bestRank < b.bestRank)
    || (a.totalStreams == b.totalStreams && a.bestRank == b.bestRank && PairLe(a, b))
  }

  lemma HighlightOrder()
    ensures TotalPreorder(HighlightBefore)
  {
    forall a, b ensures HighlightBefore(a, b) || HighlightBefore(b, a) {
      PairLeTotal(a, b);
    }
    forall a, b, c | HighlightBefore(a, b) && HighlightBefore(b, c) ensures HighlightBefore(a, c) {
      if PairLe(a, b) && PairLe(b, c) {
        PairLeTransitive(a, b, c);
      }
    }
  }

  lemma PairLeTotal(a: Highlight, b: Highlight)
    ensures PairLe(a, b) || PairLe(b, a)
  {
    StrLeTotal(a.track, b.track);
    StrLeTotal(a.artist, b.artist);
  }

  lemma PairLeTransitive(a: Highlight, b: Highlight, c: Highlight)
    requires PairLe(a, b) && PairLe(b, c)
    ensures PairLe(a, c)
  {
    if a.track == b.track && b.track == c.track {
      StrLeTransitive(a.artist, b.artist, c.artist);
    } else if a.track != b.track && b.track != c.track {
      StrLeTransitive(a.track, b.track, c.track);
      StrLeAntisymmetric(a.track, b.track);
    }
  }

  /** Two highlights that each come before the other are the same pair. */
  lemma HighlightBeforeAntisymmetric(a: Highlight, b: Highlight)
    ensures HighlightBefore(a, b) && HighlightBefore(b, a) ==> HighlightPair(a) == HighlightPair(b)
  {
    StrLeAntisymmetric(a.track, b.track);
    StrLeAntisymmetric(a.artist, b.artist);
  }

  /** Two rows `(100, 1)` for tracks "B" and "A": the tie goes to "A", which `groupby` lists first. */
  lemma TieGoesToFirstPair(a: Highlight, b: Highlight)
    requires a == Highlight("A", "y", 100, 1) && b == Highlight("B", "x", 100, 1)
    ensures HighlightBefore(a, b) && !HighlightBefore(b, a)
  {
    assert StrLe(a.track, b.track);
    assert !StrLe(b.track, a.track);
  }

  /**
   `groupby(["Track", "Artist"])` with the stream sum and the minimum
   position, sorted by total descending then best position ascending,
   first ten: each entry is its group's true aggregate, no pair appears
   twice, the order is as stated and strict, and any pair left out ranks
   strictly after every pair kept, so the list is fully determined.
   */
  function Highlights(rows: seq<Row>): (r: seq<Highlight>)
    ensures |r| == if |GroupKeys(rows, PairOf)| < ListLength then |GroupKeys(rows, PairOf)| else ListLength
    ensures |r| == ListLength || forall p :: HasKey(rows, PairOf, p) ==> exists i :: 0 <= i < |r| && (r[i].track, r[i].artist) == p
    ensures forall i :: 0 <= i < |r| ==> HighlightOf(rows, r[i])
    ensures forall i, j :: 0 <= i < j < |r| ==> (r[i].track, r[i].artist) != (r[j].track, r[j].artist)
    ensures forall i, j :: 0 <= i < j < |r| ==> HighlightBefore(r[i], r[j])
    ensures forall h :: h in PairStats(rows) && h !in r ==> forall i :: 0 <= i < |r| ==> HighlightBefore(r[i], h)
    ensures forall i, j :: 0 <= i < j < |r| ==> !HighlightBefore(r[j], r[i])
    ensures forall h :: h in PairStats(rows) && h !in r ==> forall i :: 0 <= i < |r| ==> !HighlightBefore(h, r[i])
  {
    var hs := PairStats(rows);
    var r := TopHighlights(hs);
    HighlightsFacts(rows, hs, r);
    HighlightsStrict(hs, r);
    r
  }

  /** The sort by total, best position and group order, then `head(10)`. */
  function TopHighlights(hs: seq<Highlight>): (r: seq<Highlight>)
    ensures |r| == if |hs| < ListLength then |hs| else ListLength
    ensures multiset(r) <= multiset(hs)
    ensures forall i, j :: 0 <= i < j < |r| ==> HighlightBefore(r[i], r[j])
    ensures forall h :: h in hs && h !in r ==> forall i :: 0 <= i < |r| ==> HighlightBefore(r[i], h)
  {
    HighlightOrder();
    TopN(hs, HighlightBefore, ListLength)
  }

  lemma HighlightsFacts(rows: seq<Row>, hs: seq<Highlight>, r: seq<Highlight>)
    requires hs == PairStats(rows)
    requires multiset(r) <= multiset(hs)
    requires |r| == if |hs| < ListLength then |hs| else ListLength
    ensures forall i :: 0 <= i < |r| ==> HighlightOf(rows, r[i])
    ensures forall i, j :: 0 <= i < j < |r| ==> (r[i].track, r[i].artist) != (r[j].track, r[j].artist)
    ensures |r| == ListLength || forall p :: HasKey(rows, PairOf, p) ==> exists i :: 0 <= i < |r| && (r[i].track, r[i].artist) == p
  {
    DistinctKeysSub(hs, r, HighlightPair);
    forall i | 0 <= i < |r| ensures HighlightOf(rows, r[i]) {
      assert r[i] in multiset(r);
    }
    if |r| != ListLength {
      assert multiset(r) == multiset(hs) by {
        SubMultisetSameSize(r, hs);
      }
      forall p | HasKey(rows, PairOf, p) ensures exists i :: 0 <= i < |r| && (r[i].track, r[i].artist) == p {
        var j :| 0 <= j < |hs| && (hs[j].track, hs[j].artist) == p;
        assert hs[j] in multiset(r);
        var i :| 0 <= i < |r| && r[i] == hs[j];
      }
    }
  }

  /**
   Among highlights with distinct pairs, `HighlightBefore` never holds both
   ways, so the kept entries and the left-out ones are strictly ordered.
   */
  lemma HighlightsStrict(hs: seq<Highlight>, r: seq<Highlight>)
    requires forall i, j :: 0 <= i < j < |hs| ==> (hs[i].track, hs[i].artist) != (hs[j].track, hs[j].artist)
    requires forall i, j :: 0 <= i < j < |r| ==> (r[i].track, r[i].artist) != (r[j].track, r[j].artist)
    requires multiset(r) <= multiset(hs)
    requires forall i, j :: 0 <= i < j < |r| ==> HighlightBefore(r[i], r[j])
    requires forall h :: h in hs && h !in r ==> forall i :: 0 <= i < |r| ==> HighlightBefore(r[i], h)
    ensures forall i, j :: 0 <= i < j < |r| ==> !HighlightBefore(r[j], r[i])
    ensures forall h :: h in hs && h !in r ==> forall i :: 0 <= i < |r| ==> !HighlightBefore(h, r[i])
  {
    forall i, j | 0 <= i < j < |r| ensures !HighlightBefore(r[j], r[i]) {
      HighlightBeforeAntisymmetric(r[j], r[i]);
    }
    forall h, i | h in hs && h !in r && 0 <= i < |r| ensures !HighlightBefore(h, r[i]) {
      HighlightBeforeAntisymmetric(h, r[i]);
      assert r[i] in multiset(r);
      var k :| 0 <= k < |hs| && hs[k] == h;
      var l :| 0 <= l < |hs| && hs[l] == r[i];
      assert k != l;
    }
  }

  /** A sub-multiset of the same size is the whole multiset. */
  lemma SubMultisetSameSize<T>(a: seq<T>, b: seq<T>)
    requires multiset(a) <= multiset(b) && |a| == |b|
    ensures multiset(a) == multiset(b)
  {
    var d := multiset(b) - multiset(a);
    assert multiset(b) == multiset(a) + d;
    assert |multiset(b)| == |multiset(a)| + |d|;
  }
}
