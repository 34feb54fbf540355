# Spotify Pakistan charts dashboard: a Dafny model of its data logic

`app.py` is a Streamlit dashboard over a directory of daily Spotify chart
CSV files. This project models the part of it that is logic rather than
layout:

- the loader `load_local_data`:
  - dating each file by the `YYYY-MM-DD` in its name;
  - trimming headers, then renaming them through the alias table;
  - deriving `URL` from `URI`;
  - the required-column gate on `Position` and `Streams`;
  - the `Unknown` defaults for `Track` and `Artist`;
  - numeric coercion that drops rows;
  - the merge onto `Date, Position, Track, Artist, Streams, URL`;
- the helpers `normalize_col`, `uri_to_url` and `extract_date_from_filename`;
- the transforms the dashboard applies to the merged table:
  - the quick-range date window;
  - the date, rank, artist and keyword filters;
  - the daily rollup;
  - the top-10 track and artist lists;
  - the rank movers;
  - the highlights;
  - the searchable data table.

Tables are sequences of `Row` records. Cells of a raw file are `NA` or
text. Every pandas step becomes a pure function over sequences, and every
`groupby` becomes a list of distinct keys with a per-key sum, minimum or
maximum.

## Modules

- `Text` holds Python's `strip`, ASCII `lower`, substring search and
  string order.
- `Seqs` holds boolean-mask selection, sums, distinct keys, and a sort
  under any total preorder with a top-N cut.
- `Groups` holds the group keys and the per-group sum, minimum and maximum.
- `Frame` holds raw cells and files.
- `Numbers` holds integer coercion and zero-padded decimal text.
- `Headers` holds `normalize_col`, the alias table and renaming.
- `SpotifyUri` holds `uri_to_url`.
- `Dates` holds finding the file date, calendar validity, day numbers and
  stepping back by days.
- `Ingest` holds the per-file normalisation and the merge.
- `Filters` holds the date window and the sidebar filters.
- `Rollup` holds the daily aggregates.
- `TopLists` holds the top-10 lists and the highlights.
- `Movers` holds rank changes and the movers table.
- `Search` holds the table search and its ordering.

Two behaviours of the code are kept as written:

- The table search tests a blank term after stripping it, but matches the
  term as typed, spaces included. The sidebar keyword, by contrast, is
  matched stripped.
- The movers' previous position is looked up per track name only, while
  the changes are then grouped by track and artist.

## Model

| member | source | states |
|---|---|---|
| Headers.NormalizeColShape | app.py:36-39 | A normalised header key has no underscore and no upper-case ASCII letter. Its only whitespace is the plain space, and no two whitespace characters are adjacent. |
| Headers.NormalizeColExamples | app.py:36-39 | `Track_Name`, `track  name` and ` TRACK NAME ` all give the key `track name`. |
| Headers.NormalizeColNotIdempotent | app.py:36-39 | Normalising is not idempotent: `_track` gives ` track`, and normalising again gives `track`. |
| Headers.NormalizeColIdempotent | app.py:36-39 | Normalising a produced key a second time changes nothing exactly when the key does not start or end with a space. |
| Headers.CanonicalizeExact | app.py:72-87 | The `if`/`elif` chain renames a key to a field exactly when the key is in that field's alias list. The lists are disjoint, so the first-match order never matters. |
| Headers.RenameHeader | app.py:70-89 | A trimmed header whose key is in a field's alias list is renamed to that field's canonical name. A header whose key is in no list keeps its trimmed name. |
| Headers.CanonicalNamesFixed | app.py:72-89 | The canonical names themselves are recognised as their own field, and renaming leaves them unchanged. |
| SpotifyUri.UriToUrl | app.py:42-49 | A missing cell gives `""`. The link is non-empty exactly when the stripped text starts with `spotify:track:` followed by an ASCII letter or digit. The link is then the web prefix plus the maximal alphanumeric run; trailing text is ignored. |
| SpotifyUri.UriRoundTrip | app.py:42-49 | A URI built from an identifier plus trailing text that does not continue it yields the link to exactly that identifier. |
| SpotifyUri.MalformedUri | app.py:42-49 | Any text that, once stripped, does not start with `spotify:track:` gives the empty link. |
| SpotifyUri.NotAUri | app.py:42-49 | The text `not-a-uri` gives the empty link. |
| Dates.ExtractDate | app.py:28-33 | A date is returned only when it is a valid calendar date spelled by the leftmost `DDDD-DD-DD` of the base name. Otherwise there is no match, or the leftmost match is not a real date. |
| Dates.ExtractFormattedDate | app.py:28-33 | A file named with a digit-free prefix, a formatted valid date and any suffix is dated by exactly that date, in any directory. |
| Dates.OrdinalOrder | app.py:217 | Calendar order and day-number order agree, which is what makes date arithmetic and comparison consistent. |
| Dates.SubDays | app.py:217 | Stepping back `k` days gives a valid date whose day number is `k` smaller. |
| Numbers.ParseInt | app.py:107-108 | A cell coerces to a number exactly when it is text of the form optional sign followed by digits; otherwise it becomes NaN. |
| Numbers.ParseShowRoundTrip | app.py:107-108 | Coercing the decimal text of any integer gives that integer back. |
| Ingest.CoerceRow | app.py:102-109 | A raw row is dropped exactly when its `Position` or `Streams` does not coerce. A kept row carries the file's date, both numbers, the track and artist (or `Unknown` when the column is absent) and the row's URL. |
| Ingest.UrlCell | app.py:91-96 | Each row's `URL` is the file's own `URL` cell, else the link derived from its `URI` cell, else `""`. |
| Ingest.CoerceRows | app.py:107-111 | Coercion keeps at most the input rows. All of them carry the file date and the `Unknown` or empty-URL defaults when the column is absent. |
| Ingest.CoerceRowsAppend | app.py:111 | Row dropping is row by row: appending a raw row appends its coerced form or nothing, so other rows survive in order. |
| Ingest.NonNumericRowDropped | app.py:107-111 | A row whose `Streams` reads `N/A` is dropped while the numeric rows around it survive in order. |
| Ingest.FrameColumns | app.py:89-109 | A file that has `Position` and `Streams` ends up with all six canonical columns. |
| Ingest.LayoutOf | app.py:89-109 | Given the field each header renames to, the layout exists exactly when `Position` and `Streams` are both present. Each of the six fields then sits at a column whose header renames to it, or is absent exactly when no header does. |
| Ingest.NormalizeFile | app.py:70-111 | A file is skipped exactly when `Position` or `Streams` is missing after renaming. Otherwise its rows are its raw rows coerced one by one through the columns its headers name, at most the input rows, all dated, with the canonical columns present and the `Unknown`/empty-URL defaults. |
| Ingest.LoadSourceOutcome | app.py:60-68 | A file with no usable date is skipped before it is read. A readable-date but unreadable file is skipped next. Every row a loaded file contributes carries the date in its name. |
| Ingest.Merge | app.py:114-120 | With no loaded file the result is the empty table. Otherwise the rows are the loaded files' rows concatenated in order. |
| Ingest.MergedColumns | app.py:117-120 | Once any file loads, the merged columns are exactly `Date, Position, Track, Artist, Streams, URL` in that order. |
| Ingest.NoDataIff | app.py:114-117 | The merged table has no rows exactly when no loaded file contributed a row. |
| Ingest.LoadAllFacts | app.py:60-112 | Processing the files one by one, every file that loads contributes only rows with valid calendar dates, and its columns include the six canonical ones. |
| Ingest.SortedFiles | app.py:52 | The files are reordered, none added or lost, into ascending path order. |
| Ingest.LoadLocalData | app.py:53-123 | The loaded table's rows are the rows of the files that load, concatenated in path order, all with valid calendar dates. The table has no columns exactly when no file loads, and otherwise the six canonical ones. |
| Filters.MinDate | app.py:203 | The earliest date is a date of the table and no row is earlier. |
| Filters.MaxDate | app.py:204 | The latest date is a date of the table and no row is later. |
| Filters.PresetWindow | app.py:214-217 | A preset window ends at the latest date and starts no earlier than the earliest date and no later than its end. Counting both ends it holds at most `days` days, and exactly `days` unless it is clipped at the earliest date. |
| Filters.CustomDefault | app.py:218-228 | With `Custom`, a picker holding fewer or more than two dates gives the whole data range. |
| Filters.CustomPicked | app.py:218-226 | With `Custom`, two picked dates give exactly that pair as the window. |
| Filters.ApplyFilters | app.py:240-247 | The filtered table is a subsequence of the merged table. A row is kept exactly when it is in the window, within `rank_max`, by the chosen artist (unless `(All)`), and its track contains the stripped keyword ignoring case (unless the keyword is blank). A kept row appears as often as in the merged table. |
| Filters.FiltersAsOneMask | app.py:240-247 | Applying the four masks one after another equals one selection by their conjunction. |
| Filters.WholeRangeKeepsAll | app.py:219-247 | The whole date range, `(All)` and no keyword keep every row when no row ranks below the rank cutoff. |
| Rollup.DailyRollup | app.py:276-284 | Every date of the table appears once, in increasing order, with its stream sum and at least one track; no other date appears. |
| Rollup.DailyTotalsConserve | app.py:276-284 | The daily totals add up to the streams of the whole filtered table. |
| Rollup.DayTrackCount | app.py:281 | A day's track count is the number of distinct track names charting that day. |
| TopLists.Totals | app.py:311-313 | Each name appears once with its summed streams; the names are exactly those in the table. |
| TopLists.TotalsConserve | app.py:311-313 | The group totals add up to the streams of the whole table. |
| TopLists.TopBy | app.py:311-326 | Both panels, `TopTracks` (by track) and `TopArtists` (by artist), are this function. The list has at most ten names. Each is a real group with its true total, none repeats, and streams do not increase down the list. No name left out has more streams than a name kept. |
| TopLists.PairStats | app.py:361-363 | Each (track, artist) pair of the table appears exactly once, with its stream sum and its best position. The best position is held by some row of the pair and beaten by none. |
| TopLists.Highlights | app.py:361-366 | The highlights list has as many entries as there are (track, artist) pairs, up to ten. Each is its pair's true aggregate and no pair appears twice. Entries are ordered by total descending, then best position ascending, then by (track, artist) ascending, the order `groupby` leaves and the stable multi-column sort keeps. This order is strict: no entry comes before an earlier one, and every pair left out ranks strictly after every pair kept, so the list is fully determined. |
| TopLists.HighlightOrder | app.py:361-364 | Total descending, best position ascending, then (track, artist) in string order is a total preorder, so the sort is well defined. |
| TopLists.HighlightBeforeAntisymmetric | app.py:361-364 | Two highlights that each rank no later than the other are the same (track, artist) pair: the group order breaks every remaining tie. |
| TopLists.TieGoesToFirstPair | app.py:361-364 | With equal totals and equal best positions, track "A" ranks before track "B" and not the other way round. |
| Movers.RankChangeMeaning | app.py:342-344 | In date order, a row has no change exactly when it is its track's first row. Otherwise the change is the previous same-track row's position minus its own. |
| Movers.ComputeRankChanges | app.py:342-344 | A single pass remembering each track's latest position computes every row's rank change. |
| Movers.Deltas | app.py:346-347 | The changes kept are exactly the rows that have one, with their track and artist. |
| Movers.MoverStats | app.py:346-349 | Each (track, artist) group with a change appears exactly once, and nothing else appears. Its best improvement is the largest change in the group and its worst drop the smallest, so best is at least worst. |
| Movers.TopMovers | app.py:346-354 | There are as many movers as groups of changes, up to ten. Each is a real group with best at least worst, and no group appears twice. They are listed by non-increasing best improvement, and no group left out improved more than one kept. |
| Movers.Movers | app.py:342-354 | The movers section (date sort, one pass, grouping, top ten) produces the table specified by `MoversOf`. It has as many entries as groups of changes, up to ten, each a real group appearing once, by non-increasing best improvement. |
| Movers.ClimbThenDrop | app.py:342-354 | A track charting at 10, then 4, then 12 has changes 6 and -8, and one mover entry with best 6 and worst -8. |
| Movers.SingleAppearanceNoMover | app.py:342-349 | A track that charts only once never appears among the movers. |
| Search.SearchRows | app.py:406-412 | A blank search keeps the table. Otherwise it keeps, in order, exactly the rows whose track or artist contains the term as typed, ignoring case, each as often as in the table. |
| Search.TableView | app.py:406-414 | The shown table holds the searched rows with their multiplicities, ordered by date and then by position. The multi-column sort is stable: rows sharing a date and a position keep their filtered order. |
| Search.TableSort | app.py:414 | Sorting by date and position keeps the rows with their multiplicities, in date-then-position order, and leaves the rows of each (date, position) slot in input order. |
| Seqs.SortStable | app.py:414 | The insertion sort is stable: for any class of elements the order ranks both ways, the sorted list lists that class in input order. |
| Search.TableViewRows | app.py:406-414 | A row is shown exactly when it is in the filtered table and the search accepts it. |
| Text.Strip | app.py:37 | The result has no whitespace at either end, and only whitespace was removed around it. |
| Seqs.Select | app.py:240-241 | A boolean mask keeps, in order, exactly the elements it accepts, each as often as before, and drops every other element. |
| Seqs.TopN | app.py:314-315 | `sort_values(...).head(n)` keeps `min(n, len)` elements, sorted. Every element left out ranks no earlier than every element kept. |

## Left out

- Streamlit page setup, CSS, widgets, KPI metrics and the `st.stop` flow are page layout. The track drilldown and the sorted artist option list are left out too: they only feed widgets and charts.
- Plotly chart construction and axis reversal are presentation only.
- The one-hour `st.cache_data` memoisation is wall-clock caching, not logic.
- `glob`, `pd.read_csv`, `os.path.basename` and CSV export are file I/O.
  - A file is given as its path plus either a header list with rows of cells, or "unreadable".
  - The basename is the text after the last `/`.
- The directory is given as a sequence of files; the loader sorts them by path.
- Numbers.ParseInt: integer text only. `pd.to_numeric` also accepts floats, exponents and surrounding whitespace, which are not modelled.
- The `mean` columns of the daily rollup and the KPI row are floating point, so they are left out.
- Dates.ExtractDate: only ASCII digits count, and any year from 1 is accepted. Python's `\d` also matches other Unicode digits, and pandas timestamps are limited to about years 1677-2262.
- Filters.Window: stepping back must stay at or after 0001-01-01, where Python's date arithmetic is defined.
- Filters.ApplyFilters: the keyword is matched as a literal substring. pandas treats it as a regular expression, so keywords are assumed to have no regex metacharacters.
- Search.SearchRows: likewise, the search term is matched as a literal substring, not a regex.
- Text.Lower: ASCII letters only. Python's `lower` also folds non-ASCII letters.
- Ingest.NormalizeFile: requires that no two headers rename to the same column. pandas would keep both columns, and coercing such a duplicated column fails.
- Tie order is not specified in three places, because pandas' default sort is not stable there:
  - same-day rows in the movers' date sort;
  - equal totals in the top-10 lists;
  - equal best improvements among movers.

  The model uses one admissible order. Its contracts hold for any input order.
  The highlights sort and the table sort are on several columns, which pandas sorts stably; the model follows their tie order exactly.
- Frame.AsStr: cells are modelled as text or missing. A column that pandas parsed as numbers would print differently under `astype(str)`.
- The `round(0).astype(int)` steps of movers and highlights are identities on the integer values modelled here.
