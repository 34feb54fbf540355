/**
 Ingestion of the data directory (`load_local_data`): each file is dated
 by its name, its headers are renamed through the alias table, `URL`,
 `Track` and `Artist` are filled in, `Position` and `Streams` are coerced
 with per-row dropping, and the surviving rows of all files are
 concatenated and projected onto the canonical column order.
 */
module Ingest {
  import opened Wrappers
  import opened Text
  import opened Seqs
  import opened Frame
  import opened Numbers
  import opened Headers
  import opened SpotifyUri
  import opened Dates

  /** One song-day of the merged chart table. */
  datatype Row = Row(date: Date, position: int, track: string, artist: string, streams: int, url: Cell)

  // Column projections, passed to the grouping and sorting helpers.
  function DateOf(r: Row): Date { r.date }
  function PositionOf(r: Row): int { r.position }
  function TrackOf(r: Row): string { r.track }
  function ArtistOf(r: Row): string { r.artist }
  function StreamsOf(r: Row): int { r.streams }

  /** Why a file contributes nothing; each is silent in the dashboard. */
  datatype SkipReason = NoDateInName | Unreadable | MissingRequired

  /** A file's contribution: skipped, or its columns and surviving rows. */
  datatype Outcome = Skipped(reason: SkipReason) | Loaded(columns: seq<string>, rows: seq<Row>)

  /** The merged table: its column names and rows. */
  datatype Table = Table(columns: seq<string>, rows: seq<Row>)

  const Unknown: string := "Unknown"
  const CanonicalColumns: seq<string> := ["Date", "Position", "Track", "Artist", "Streams", "URL"]

  /** Every canonical column name is among `cols`. */
  predicate HasCanonicalColumns(cols: seq<string>) {
    forall c :: c in CanonicalColumns ==> c in cols
  }

  function Fields(headers: seq<string>): (r: seq<Option<Field>>)
    ensures |r| == |headers|
    ensures forall i :: 0 <= i < |headers| ==> r[i] == HeaderField(headers[i])
  {
    MapSeq(headers, HeaderField)
  }

  /** No two headers rename to the same field (pandas would keep both columns). */
  predicate UniqueFields(headers: seq<string>) {
    var fs := Fields(headers);
    forall i, j :: 0 <= i < j < |fs| && fs[i].Some? ==> fs[i] != fs[j]
  }

  predicate HasField(headers: seq<string>, f: Field) {
    Some(f) in Fields(headers)
  }

  /** The column that renames to `f`, if any. */
  function FindField(fs: seq<Option<Field>>, f: Field): (r: Option<nat>)
    ensures r.Some? ==> r.value < |fs| && fs[r.value] == Some(f)
    ensures r.None? <==> Some(f) !in fs
  {
    if |fs| == 0 then None
    else if fs[0] == Some(f) then Some(0)
    else match FindField(fs[1..], f)
      case Some(i) => Some(i + 1)
      case None => None
  }

  /** Where the recognised columns of one file sit. */
  datatype Layout = Layout(position: nat, streams: nat, track: Option<nat>, artist: Option<nat>,
                           url: Option<nat>, uri: Option<nat>)

  /** `c` is where `f` sits among the recognised headers: a column recognised as `f`, or `None` when there is none. */
  predicate ColumnOf(fs: seq<Option<Field>>, f: Field, c: Option<nat>) {
    && (c.None? <==> Some(f) !in fs)
    && (c.Some? ==> c.value < |fs| && fs[c.value] == Some(f))
  }

  /**
   The columns a file's recognised headers provide; `None` when `Position`
   or `Streams` is missing, the two columns coercion needs.
   */
  function LayoutOf(fs: seq<Option<Field>>): (r: Option<Layout>)
    ensures r.None? <==> Some(Position) !in fs || Some(Streams) !in fs
    ensures r.Some? ==>
      && ColumnOf(fs, Position, Some(r.value.position))
      && ColumnOf(fs, Streams, Some(r.value.streams))
      && ColumnOf(fs, Track, r.value.track)
      && ColumnOf(fs, Artist, r.value.artist)
      && ColumnOf(fs, Url, r.value.url)
      && ColumnOf(fs, Uri, r.value.uri)
  {
    var pos := FindField(fs, Position);
    var str := FindField(fs, Streams);
    if pos.None? || str.None? then None
    else Some(Layout(pos.value, str.value, FindField(fs, Track), FindField(fs, Artist),
                     FindField(fs, Url), FindField(fs, Uri)))
  }

  /** The `URL` value of a row: the file's own URL, else one derived from `URI`, else empty. */
  function UrlCell(lay: Layout, row: seq<Cell>): (c: Cell)
    ensures lay.url.Some? ==> c == CellAt(row, lay.url.value)
    ensures lay.url.None? && lay.uri.Some? ==> c == Str(UriToUrl(CellAt(row, lay.uri.value)))
    ensures lay.url.None? && lay.uri.None? ==> c == Str("")
  {
    match lay.url
    case Some(col) => CellAt(row, col)
    case None =>
      match lay.uri
      case Some(col) => Str(UriToUrl(CellAt(row, col)))
      case None => Str("")
  }

  /** A text column as a string, or `Unknown` when the file has no such column. */
  function TextOr(col: Option<nat>, row: seq<Cell>): string {
    match col
    case Some(c) => AsStr(CellAt(row, c))
    case None => Unknown
  }

  /** One raw row after coercion; `None` when `Position` or `Streams` is not numeric. */
  function CoerceRow(d: Date, lay: Layout, row: seq<Cell>): (r: Option<Row>)
    ensures r.None? <==> ParseInt(CellAt(row, lay.position)).None? || ParseInt(CellAt(row, lay.streams)).None?
    ensures r.Some? ==> && r.value.date == d
                        && Some(r.value.position) == ParseInt(CellAt(row, lay.position))
                        && Some(r.value.streams) == ParseInt(CellAt(row, lay.streams))
                        && r.value.url == UrlCell(lay, row)
                        && (lay.track.None? ==> r.value.track == Unknown)
                        && (lay.artist.None? ==> r.value.artist == Unknown)
                        && (lay.track.Some? ==> r.value.track == AsStr(CellAt(row, lay.track.value)))
                        && (lay.artist.Some? ==> r.value.artist == AsStr(CellAt(row, lay.artist.value)))
  {
    var p := ParseInt(CellAt(row, lay.position));
    var s := ParseInt(CellAt(row, lay.streams));
    if p.Some? && s.Some? then
      Some(Row(d, p.value, TextOr(lay.track, row), TextOr(lay.artist, row), s.value, UrlCell(lay, row)))
    else None
  }

  /** `dropna(subset=["Position", "Streams"])` after coercion, keeping row order. */
  function CoerceRows(d: Date, lay: Layout, rows: seq<seq<Cell>>): (r: seq<Row>)
    ensures |r| <= |rows|
    ensures forall x :: x in r ==> x.date == d
    ensures lay.track.None? ==> forall x :: x in r ==> x.track == Unknown
    ensures lay.artist.None? ==> forall x :: x in r ==> x.artist == Unknown
    ensures lay.url.None? && lay.uri.None? ==> forall x :: x in r ==> x.url == Str("")
  {
    if |rows| == 0 then []
    else
      var rest := CoerceRows(d, lay, rows[1..]);
      match CoerceRow(d, lay, rows[0])
      case Some(x) => [x] + rest
      case None => rest
  }

  /**
   Coercion works row by row: appending a raw row appends its coerced form
   when both numbers parse and nothing otherwise, so one bad row never
   disturbs the others or their order.
   */
  lemma {:induction false} CoerceRowsAppend(d: Date, lay: Layout, rows: seq<seq<Cell>>, row: seq<Cell>)
    ensures CoerceRows(d, lay, rows + [row])
         == CoerceRows(d, lay, rows) + (match CoerceRow(d, lay, row) case Some(x) => [x] case None => [])
  {
    if |rows| == 0 {
      assert rows + [row] == [row];
    } else {
      assert (rows + [row])[1..] == rows[1..] + [row];
      CoerceRowsAppend(d, lay, rows[1..], row);
    }
  }

  /**
   A chart row whose `Streams` reads `N/A` is dropped, while a row with
   numeric `Position` and `Streams` survives; the rows after a dropped one
   keep their order.
   */
  lemma NonNumericRowDropped(d: Date, lay: Layout, good: seq<Cell>, bad: seq<Cell>, na: string)
    requires na == "N/A"
    requires ParseInt(CellAt(good, lay.position)).Some? && ParseInt(CellAt(good, lay.streams)).Some?
    requires CellAt(bad, lay.streams) == Str(na)
    ensures CoerceRow(d, lay, bad).None?
    ensures CoerceRows(d, lay, [good, bad, good]) == [CoerceRow(d, lay, good).value, CoerceRow(d, lay, good).value]
  {
    assert !IsIntLiteral(na) by {
      assert na[0] == 'N' && !IsDigit(na[0]);
    }
    var g := CoerceRow(d, lay, good).value;
    assert [good, bad, good][1..] == [bad, good];
    assert [bad, good][1..] == [good];
    assert [good][1..] == [];
    assert CoerceRows(d, lay, [good]) == [g];
    assert CoerceRows(d, lay, [bad, good]) == [g];
  }

  /** The column names of a loaded file after renaming and the added columns. */
  function FrameColumns(headers: seq<string>): (cols: seq<string>)
    requires HasField(headers, Position) && HasField(headers, Streams)
    ensures HasCanonicalColumns(cols)
  {
    var renamed := MapSeq(headers, RenameHeader);
    var fs := Fields(headers);
    var withUrl := if Some(Url) in fs then renamed else renamed + ["URL"];
    var withTrack := if Some(Track) in fs then withUrl else withUrl + ["Track"];
    var withArtist := if Some(Artist) in fs then withTrack else withTrack + ["Artist"];
    var cols := withArtist + ["Date"];
    RenamedContains(headers, Position);
    RenamedContains(headers, Streams);
    RenamedContains(headers, Url);
    RenamedContains(headers, Track);
    RenamedContains(headers, Artist);
    assert renamed <= withUrl <= withTrack <= withArtist <= cols;
    assert "URL" in withUrl && "Track" in withTrack && "Artist" in withArtist;
    cols
  }

  /** A header recognised as `f` shows up under `f`'s canonical name after renaming. */
  lemma RenamedContains(headers: seq<string>, f: Field)
    ensures HasField(headers, f) ==> FieldName(f) in MapSeq(headers, RenameHeader)
  {
    if HasField(headers, f) {
      var fs := Fields(headers);
      var i :| 0 <= i < |fs| && fs[i] == Some(f);
      assert MapSeq(headers, RenameHeader)[i] == FieldName(f);
    }
  }

  /**
   One file with a known date: rename, gate on the two required columns,
   then coerce its rows and tag them with the date.
   */
  function NormalizeFile(d: Date, t: RawTable): (o: Outcome)
    requires UniqueFields(t.headers)
    ensures o.Skipped? <==> !HasField(t.headers, Position) || !HasField(t.headers, Streams)
    ensures o.Skipped? ==> o.reason == MissingRequired
    ensures o.Loaded? ==> var lay := LayoutOf(Fields(t.headers));
              lay.Some? && o.rows == CoerceRows(d, lay.value, t.rows)
    ensures o.Loaded? ==> |o.rows| <= |t.rows| && forall r :: r in o.rows ==> r.date == d
    ensures o.Loaded? ==> HasCanonicalColumns(o.columns)
    ensures o.Loaded? && !HasField(t.headers, Track) ==> forall r :: r in o.rows ==> r.track == Unknown
    ensures o.Loaded? && !HasField(t.headers, Artist) ==> forall r :: r in o.rows ==> r.artist == Unknown
    ensures o.Loaded? && !HasField(t.headers, Url) && !HasField(t.headers, Uri) ==>
              forall r :: r in o.rows ==> r.url == Str("")
  {
    match LayoutOf(Fields(t.headers))
    case None => Skipped(MissingRequired)
    case Some(lay) => Loaded(FrameColumns(t.headers), CoerceRows(d, lay, t.rows))
  }

  /** The processing of one file of the directory, in the order the loop applies its checks. */
  function LoadSource(f: SourceFile): Outcome
    requires FileWellFormed(f)
  {
    match ExtractDate(f.path)
    case None => Skipped(NoDateInName)
    case Some(d) =>
      match f.content
      case None => Skipped(Unreadable)
      case Some(t) => NormalizeFile(d, t)
  }

  /**
   A file is skipped for a missing or unusable date before it is read,
   then for being unreadable; every row it contributes carries the date
   in its name, and a loaded file has every canonical column.
   */
  lemma LoadSourceOutcome(f: SourceFile)
    requires FileWellFormed(f)
    ensures ExtractDate(f.path).None? <==> LoadSource(f) == Skipped(NoDateInName)
    ensures ExtractDate(f.path).Some? && f.content.None? <==> LoadSource(f) == Skipped(Unreadable)
    ensures LoadSource(f).Loaded? ==> forall r :: r in LoadSource(f).rows ==> Some(r.date) == ExtractDate(f.path)
    ensures LoadSource(f).Loaded? ==> HasCanonicalColumns(LoadSource(f).columns)
  {
  }

  function LoadedRows(os: seq<Outcome>): seq<Row> {
    if |os| == 0 then []
    else (if os[0].Loaded? then os[0].rows else []) + LoadedRows(os[1..])
  }

  function LoadedColumns(os: seq<Outcome>): seq<string> {
    if |os| == 0 then []
    else (if os[0].Loaded? then os[0].columns else []) + LoadedColumns(os[1..])
  }

  predicate AnyLoaded(os: seq<Outcome>) {
    exists i :: 0 <= i < |os| && os[i].Loaded?
  }

  /**
   `pd.concat` of the loaded files followed by the projection onto the
   canonical columns present; no loaded file gives the empty frame.
   */
  function Merge(os: seq<Outcome>): (t: Table)
    ensures !AnyLoaded(os) ==> t == Table([], [])
    ensures t.rows == LoadedRows(os)
  {
    if !AnyLoaded(os) then
      NothingLoaded(os);
      Table([], [])
    else
      var present := LoadedColumns(os);
      Table(Select(CanonicalColumns, c => c in present), LoadedRows(os))
  }

  lemma {:induction false} NothingLoaded(os: seq<Outcome>)
    requires !AnyLoaded(os)
    ensures LoadedRows(os) == []
  {
    if |os| > 0 {
      assert !os[0].Loaded?;
      assert forall i :: 1 <= i < |os| ==> os[1..][i - 1] == os[i];
      NothingLoaded(os[1..]);
    }
  }

  /** As soon as one file loads, all six canonical columns are present, in canonical order. */
  lemma MergedColumns(os: seq<Outcome>)
    requires AnyLoaded(os)
    requires forall i :: 0 <= i < |os| && os[i].Loaded? ==>
               HasCanonicalColumns(os[i].columns)
    ensures Merge(os).columns == CanonicalColumns
  {
    var i :| 0 <= i < |os| && os[i].Loaded?;
    ColumnsIncluded(os, i);
    var present := LoadedColumns(os);
    SelectAll(CanonicalColumns, c => c in present);
  }

  lemma {:induction false} ColumnsIncluded(os: seq<Outcome>, i: nat)
    requires i < |os| && os[i].Loaded?
    ensures forall c :: c in os[i].columns ==> c in LoadedColumns(os)
  {
    if i > 0 {
      ColumnsIncluded(os[1..], i - 1);
    }
  }

  /** The merged table is empty exactly when no file contributed a row. */
  lemma {:induction false} NoDataIff(os: seq<Outcome>)
    ensures |LoadedRows(os)| == 0 <==> forall i :: 0 <= i < |os| && os[i].Loaded? ==> |os[i].rows| == 0
  {
    if |os| > 0 {
      NoDataIff(os[1..]);
      assert forall i :: 1 <= i < |os| ==> os[i] == os[1..][i - 1];
    }
  }

  ghost predicate FileWellFormed(f: SourceFile) {
    f.content.Some? ==> UniqueFields(f.content.value.headers)
  }

  predicate PathLe(a: SourceFile, b: SourceFile) {
    StrLe(a.path, b.path)
  }

  lemma PathOrder()
    ensures TotalPreorder(PathLe)
  {
    forall a: SourceFile, b: SourceFile ensures PathLe(a, b) || PathLe(b, a) {
      StrLeTotal(a.path, b.path);
    }
    forall a: SourceFile, b: SourceFile, c: SourceFile | PathLe(a, b) && PathLe(b, c)
      ensures PathLe(a, c)
    {
      StrLeTransitive(a.path, b.path, c.path);
    }
  }

  /** The files in ascending path order. */
  function SortedFiles(files: seq<SourceFile>): (r: seq<SourceFile>)
    ensures multiset(r) == multiset(files)
    ensures forall f :: f in r <==> f in files
    ensures forall i, j :: 0 <= i < j < |r| ==> StrLe(r[i].path, r[j].path)
  {
    PathOrder();
    var r := Sort(files, PathLe);
    assert forall f :: f in r <==> f in multiset(r);
    assert forall i, j :: 0 <= i < j < |r| ==> PathLe(r[i], r[j]);
    r
  }

  /**
   `load_local_data`: the files in sorted path order, each loaded or
   skipped, then merged. The rows are the loaded files' rows in path
   order, and the table has no columns (the "no data" state) exactly when
   no file loads.
   */
  function LoadLocalData(files: seq<SourceFile>): (t: Table)
    requires forall f :: f in files ==> FileWellFormed(f)
    ensures t.rows == LoadedRows(LoadAll(SortedFiles(files)))
    ensures forall r :: r in t.rows ==> IsValidDate(r.date)
    ensures t.columns == [] <==> !AnyLoaded(LoadAll(SortedFiles(files)))
    ensures AnyLoaded(LoadAll(SortedFiles(files))) ==> t.columns == CanonicalColumns
  {
    var os := LoadAll(SortedFiles(files));
    LoadAllFacts(SortedFiles(files));
    LoadedRowsValid(os);
    if AnyLoaded(os) then
      MergedColumns(os);
      Merge(os)
    else
      Merge(os)
  }

  /** Each file loaded or skipped, in order; every loaded row carries a valid date. */
  function LoadAll(files: seq<SourceFile>): (os: seq<Outcome>)
    requires forall f :: f in files ==> FileWellFormed(f)
    ensures |os| == |files|
    ensures forall i :: 0 <= i < |os| ==> os[i] == LoadSource(files[i])
  {
    seq(|files|, i requires 0 <= i < |files| => assert files[i] in files; LoadSource(files[i]))
  }

  /** Every row that reaches the merged table carries a valid calendar date. */
  lemma LoadAllFacts(files: seq<SourceFile>)
    requires forall f :: f in files ==> FileWellFormed(f)
    ensures var os := LoadAll(files);
      && (forall i :: 0 <= i < |os| && os[i].Loaded? ==> forall r :: r in os[i].rows ==> IsValidDate(r.date))
      && (forall i :: 0 <= i < |os| && os[i].Loaded? ==> HasCanonicalColumns(os[i].columns))
  {
    var os := LoadAll(files);
    forall i | 0 <= i < |os| && os[i].Loaded?
      ensures forall r :: r in os[i].rows ==> IsValidDate(r.date)
      ensures HasCanonicalColumns(os[i].columns)
    {
      assert files[i] in files;
      LoadSourceOutcome(files[i]);
    }
  }

  lemma {:induction false} LoadedRowsValid(os: seq<Outcome>)
    requires forall i :: 0 <= i < |os| && os[i].Loaded? ==> forall r :: r in os[i].rows ==> IsValidDate(r.date)
    ensures forall r :: r in LoadedRows(os) ==> IsValidDate(r.date)
  {
    if |os| > 0 {
      assert forall i :: 1 <= i < |os| ==> os[i] == os[1..][i - 1];
      LoadedRowsValid(os[1..]);
    }
  }

}
