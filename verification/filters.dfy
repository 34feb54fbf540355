/**
 The sidebar's view of the merged table: the date window (a quick-range
 preset or a picked range), then the date, rank, artist and track-keyword
 filters applied one after another.
 */
module Filters {
  import opened Wrappers
  import opened Text
  import opened Seqs
  import opened Dates
  import opened Ingest

  // ---------------------------------------------------------------------
  // The date window
  // ---------------------------------------------------------------------

  /** The quick-range radio and, for `Custom`, what the date picker returned. */
  datatype RangeChoice = Custom(picked: seq<Date>) | Last7 | Last14 | Last30

  function PresetDays(c: RangeChoice): (n: nat)
    requires !c.Custom?
    ensures n == 7 || n == 14 || n == 30
  {
    match c
    case Last7 => 7
    case Last14 => 14
    case Last30 => 30
  }

  /** The earliest date of a non-empty table (`df["Date"].min()`). */
  function MinDate(rows: seq<Row>): (d: Date)
    requires |rows| > 0
    ensures exists i :: 0 <= i < |rows| && rows[i].date == d
    ensures forall i :: 0 <= i < |rows| ==> DateLe(d, rows[i].date)
  {
    if |rows| == 1 then rows[0].date
    else
      var m := MinDate(rows[1..]);
      assert forall i :: 1 <= i < |rows| ==> rows[i] == rows[1..][i - 1];
      if DateLe(rows[0].date, m) then rows[0].date else m
  }

  /** The latest date of a non-empty table (`df["Date"].max()`). */
  function MaxDate(rows: seq<Row>): (d: Date)
    requires |rows| > 0
    ensures exists i :: 0 <= i < |rows| && rows[i].date == d
    ensures forall i :: 0 <= i < |rows| ==> DateLe(rows[i].date, d)
  {
    if |rows| == 1 then rows[0].date
    else
      var m := MaxDate(rows[1..]);
      assert forall i :: 1 <= i < |rows| ==> rows[i] == rows[1..][i - 1];
      if DateLe(m, rows[0].date) then rows[0].date else m
  }

  /** The later of two dates (Python's `max` on dates). */
  function Later(a: Date, b: Date): Date {
    if DateLe(a, b) then b else a
  }

  /**
   The `(start, end)` pair of the sidebar. A preset ends at the latest date
   and starts `days - 1` days earlier, but never before the earliest date;
   `Custom` takes the picked pair, or the whole range while fewer or more
   than two dates are picked. Stepping back must stay in year 1 or later,
   where Python's date arithmetic is defined.
   */
  function Window(c: RangeChoice, minD: Date, maxD: Date): (w: (Date, Date))
    requires IsValidDate(minD) && IsValidDate(maxD)
    requires !c.Custom? ==> Ordinal(maxD) >= PresetDays(c)
  {
    match c
    case Custom(picked) => if |picked| == 2 then (picked[0], picked[1]) else (minD, maxD)
    case _ => (Later(minD, SubDays(maxD, PresetDays(c) - 1)), maxD)
  }

  /**
   A preset window over a table whose dates run from `minD` to `maxD`
   ends at `maxD`, starts no earlier than `minD` and no later than its
   end, and holds at most `days` days counting both ends; it holds exactly
   `days` unless it is clipped at `minD`.
   */
  lemma PresetWindow(c: RangeChoice, minD: Date, maxD: Date)
    requires IsValidDate(minD) && IsValidDate(maxD) && DateLe(minD, maxD)
    requires !c.Custom? && Ordinal(maxD) >= PresetDays(c)
    ensures var (s, e) := Window(c, minD, maxD);
      && e == maxD
      && IsValidDate(s)
      && DateLe(minD, s) && DateLe(s, e)
      && 0 <= Ordinal(e) - Ordinal(s) < PresetDays(c)
      && (s == minD || Ordinal(e) - Ordinal(s) == PresetDays(c) - 1)
  {
    var back := SubDays(maxD, PresetDays(c) - 1);
    OrdinalOrder(minD, back);
    OrdinalOrder(minD, maxD);
    OrdinalOrder(back, maxD);
  }

  /** With `Custom` and a picker holding other than two dates, the window is the whole data range. */
  lemma CustomDefault(minD: Date, maxD: Date, picked: seq<Date>)
    requires IsValidDate(minD) && IsValidDate(maxD)
    requires |picked| != 2
    ensures Window(Custom(picked), minD, maxD) == (minD, maxD)
  {
  }

  /** With `Custom` and two picked dates, the window is exactly the picked pair, in picked order. */
  lemma CustomPicked(minD: Date, maxD: Date, a: Date, b: Date)
    requires IsValidDate(minD) && IsValidDate(maxD)
    ensures Window(Custom([a, b]), minD, maxD) == (a, b)
  {
  }

  // ---------------------------------------------------------------------
  // The filters
  // ---------------------------------------------------------------------

  const AllArtists: string := "(All)"

  /** The sidebar state the filters read. */
  datatype Selection = Selection(start: Date, end: Date, rankMax: int, artist: string, keyword: string)

  predicate InWindow(sel: Selection, r: Row) {
    DateLe(sel.start, r.date) && DateLe(r.date, sel.end)
  }

  predicate ArtistMatches(sel: Selection, r: Row) {
    sel.artist == AllArtists || r.artist == sel.artist
  }

  /**
   A blank keyword keeps every track; otherwise the stripped keyword must
   occur in the track name, ignoring ASCII case.
   */
  predicate KeywordMatches(sel: Selection, r: Row) {
    var k := Strip(sel.keyword);
    |k| == 0 || ContainsIgnoreCase(r.track, k)
  }

  /** Everything a row must satisfy to stay in the filtered view. */
  predicate Keep(sel: Selection, r: Row) {
    InWindow(sel, r) && r.position <= sel.rankMax && ArtistMatches(sel, r) && KeywordMatches(sel, r)
  }

  /**
   The four filters as the dashboard applies them, one mask at a time:
   the result keeps, in order, exactly the rows meeting every condition,
   each as often as it occurs in the input.
   */
  function ApplyFilters(sel: Selection, rows: seq<Row>): (r: seq<Row>)
    ensures SubseqOf(r, rows)
    ensures forall x :: x in r <==> x in rows && Keep(sel, x)
    ensures forall x :: x in r ==> DateLe(sel.start, x.date) && DateLe(x.date, sel.end) && x.position <= sel.rankMax
    ensures sel.artist != AllArtists ==> forall x :: x in r ==> x.artist == sel.artist
    ensures forall x :: multiset(r)[x] == if Keep(sel, x) then multiset(rows)[x] else 0
  {
    var byDate := Select(rows, x => InWindow(sel, x));
    var byRank := Select(byDate, (x: Row) => x.position <= sel.rankMax);
    var byArtist := if sel.artist != AllArtists then Select(byRank, (x: Row) => x.artist == sel.artist) else byRank;
    var k := Strip(sel.keyword);
    var out := if |k| > 0 then Select(byArtist, (x: Row) => ContainsIgnoreCase(x.track, k)) else byArtist;
    FiltersAsOneMask(sel, rows);
    OneMaskFacts(sel, rows, out);
    out
  }

  /** What the selection by the conjunction of the filters keeps. */
  lemma OneMaskFacts(sel: Selection, rows: seq<Row>, r: seq<Row>)
    requires r == Select(rows, x => Keep(sel, x))
    ensures SubseqOf(r, rows)
    ensures forall x :: x in r <==> x in rows && Keep(sel, x)
    ensures forall x :: multiset(r)[x] == if Keep(sel, x) then multiset(rows)[x] else 0
  {
    SelectCount(rows, x => Keep(sel, x));
  }

  /**
   Applying the masks in sequence is the same as applying their
   conjunction once, so the filtered view is a single selection.
   */
  lemma FiltersAsOneMask(sel: Selection, rows: seq<Row>)
    ensures var byDate := Select(rows, x => InWindow(sel, x));
      var byRank := Select(byDate, (x: Row) => x.position <= sel.rankMax);
      var byArtist := if sel.artist != AllArtists then Select(byRank, (x: Row) => x.artist == sel.artist) else byRank;
      var k := Strip(sel.keyword);
      (if |k| > 0 then Select(byArtist, (x: Row) => ContainsIgnoreCase(x.track, k)) else byArtist)
        == Select(rows, x => Keep(sel, x))
  {
    var p1 := (x: Row) => InWindow(sel, x);
    var p2 := (x: Row) => InWindow(sel, x) && x.position <= sel.rankMax;
    var p3 := (x: Row) => p2(x) && ArtistMatches(sel, x);
    SelectSelect(rows, p1, (x: Row) => x.position <= sel.rankMax, p2);
    var byRank := Select(rows, p2);
    if sel.artist != AllArtists {
      SelectSelect(rows, p2, (x: Row) => x.artist == sel.artist, p3);
    } else {
      SelectSame(rows, p2, p3);
    }
    var k := Strip(sel.keyword);
    if |k| > 0 {
      SelectSelect(rows, p3, (x: Row) => ContainsIgnoreCase(x.track, k), (x: Row) => Keep(sel, x));
    } else {
      SelectSame(rows, p3, x => Keep(sel, x));
    }
  }

  /**
   Selecting the whole date range with all artists and no keyword keeps
   every row when no row ranks below the rank cutoff `n`.
   */
  lemma WholeRangeKeepsAll(rows: seq<Row>, sel: Selection, n: int)
    requires |rows| > 0
    requires sel == Selection(MinDate(rows), MaxDate(rows), n, AllArtists, "")
    requires forall x :: x in rows ==> x.position <= n
    ensures ApplyFilters(sel, rows) == rows
  {
    var keep := (x: Row) => Keep(sel, x);
    WholeRangeKeepsEach(rows, sel, n);
    SelectAll(rows, keep);
    ApplyFiltersOneMask(sel, rows, keep);
  }

  /** Under that selection every row meets every condition. */
  lemma WholeRangeKeepsEach(rows: seq<Row>, sel: Selection, n: int)
    requires |rows| > 0
    requires sel == Selection(MinDate(rows), MaxDate(rows), n, AllArtists, "")
    requires forall x :: x in rows ==> x.position <= n
    ensures forall x :: x in rows ==> Keep(sel, x)
  {
    assert Strip(sel.keyword) == [];
    forall x | x in rows ensures Keep(sel, x) {
      var i :| 0 <= i < |rows| && rows[i] == x;
      assert InWindow(sel, x) by {
        assert DateLe(sel.start, rows[i].date) && DateLe(rows[i].date, sel.end);
      }
      assert KeywordMatches(sel, x);
      assert ArtistMatches(sel, x);
    }
  }

  /** The filtered view is the selection of the rows meeting every condition. */
  lemma ApplyFiltersOneMask(sel: Selection, rows: seq<Row>, keep: Row -> bool)
    requires forall x :: keep(x) == Keep(sel, x)
    ensures ApplyFilters(sel, rows) == Select(rows, keep)
  {
    FiltersAsOneMask(sel, rows);
    SelectSame(rows, x => Keep(sel, x), keep);
  }
}
