/**
 The data table under the charts: an optional case-insensitive search over
 track and artist names, then ordering by date and chart position.
 */
module Search {
  import opened Text
  import opened Seqs
  import opened Dates
  import opened Ingest

  /**
   The search term occurs in the track or the artist name, ignoring ASCII
   case. The term is matched as typed: only the blank test strips it.
   */
  predicate Mentions(q: string, r: Row) {
    ContainsIgnoreCase(r.track, q) || ContainsIgnoreCase(r.artist, q)
  }

  /**
   A blank search keeps every row; otherwise the rows mentioning the term,
   in order and each as often as it occurs in the input.
   */
  function SearchRows(rows: seq<Row>, q: string): (r: seq<Row>)
    ensures SubseqOf(r, rows)
    ensures |Strip(q)| == 0 ==> r == rows
    ensures |Strip(q)| > 0 ==> forall x :: x in r <==> x in rows && Mentions(q, x)
    ensures |Strip(q)| > 0 ==> forall x :: multiset(r)[x] == if Mentions(q, x) then multiset(rows)[x] else 0
  {
    if |Strip(q)| > 0 then
      SelectCount(rows, x => Mentions(q, x));
      Select(rows, x => Mentions(q, x))
    else
      SubseqOfSelf(rows);
      rows
  }

  /** `sort_values(["Date", "Position"])`: earlier days first, better positions first within a day. */
  predicate TableOrder(a: Row, b: Row) {
    DateLt(a.date, b.date) || (a.date == b.date && a.position <= b.position)
  }

  lemma TableOrderTotal()
    ensures TotalPreorder(TableOrder)
  {
  }

  /** The rows of day `d` at position `n`: a class the table order cannot separate. */
  function AtSlot(d: Date, n: int): Row -> bool {
    (x: Row) => x.date == d && x.position == n
  }

  /**
   The table as shown and exported: exactly the rows the search keeps,
   each as often as before, ordered by date and then by position, with
   rows sharing a date and a position left in their filtered order.
   */
  function TableView(rows: seq<Row>, q: string): (r: seq<Row>)
    ensures multiset(r) == multiset(SearchRows(rows, q))
    ensures forall i, j :: 0 <= i < j < |r| ==>
              DateLe(r[i].date, r[j].date) && (r[i].date == r[j].date ==> r[i].position <= r[j].position)
    ensures forall d, n :: Select(r, AtSlot(d, n)) == Select(SearchRows(rows, q), AtSlot(d, n))
  {
    TableSort(SearchRows(rows, q))
  }

  /**
   `sort_values(["Date", "Position"])` itself: the same rows, in table
   order. A sort on several columns is stable, so rows that tie on both
   keep their input order.
   */
  function TableSort(s: seq<Row>): (r: seq<Row>)
    ensures multiset(r) == multiset(s)
    ensures forall i, j :: 0 <= i < j < |r| ==>
              DateLe(r[i].date, r[j].date) && (r[i].date == r[j].date ==> r[i].position <= r[j].position)
    ensures forall d, n :: Select(r, AtSlot(d, n)) == Select(s, AtSlot(d, n))
  {
    TableOrderTotal();
    var r := Sort(s, TableOrder);
    assert forall i, j :: 0 <= i < j < |r| ==> TableOrder(r[i], r[j]);
    TableSortStable(s);
    r
  }

  /** Sorting in table order keeps each date-and-position class in input order. */
  lemma TableSortStable(s: seq<Row>)
    ensures TotalPreorder(TableOrder)
    ensures forall d, n :: Select(Sort(s, TableOrder), AtSlot(d, n)) == Select(s, AtSlot(d, n))
  {
    TableOrderTotal();
    forall d, n
      ensures Select(Sort(s, TableOrder), AtSlot(d, n)) == Select(s, AtSlot(d, n))
    {
      SortStable(s, TableOrder, AtSlot(d, n));
    }
  }

  /** Every row of the view is a row of the filtered table that the search accepts. */
  lemma TableViewRows(rows: seq<Row>, q: string)
    ensures forall x :: x in TableView(rows, q) <==> x in rows && (|Strip(q)| == 0 || Mentions(q, x))
  {
    var v := TableView(rows, q);
    var s := SearchRows(rows, q);
    forall x ensures x in v <==> x in s {
      assert x in v <==> x in multiset(v);
      assert x in s <==> x in multiset(s);
    }
  }
}
