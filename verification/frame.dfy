/**
 A raw CSV table as the reader hands it over: the header row and the data
 rows, each cell either a piece of text or missing (pandas' NaN).
 */
module Frame {
  import opened Wrappers

  datatype Cell = NA | Str(s: string)

  datatype RawTable = RawTable(headers: seq<string>, rows: seq<seq<Cell>>)

  /** One file of the data directory; `content` is `None` when reading it failed. */
  datatype SourceFile = SourceFile(path: string, content: Option<RawTable>)

  /** The cell of `row` in column `col`; a short row is padded with NaN, as the reader does. */
  function CellAt(row: seq<Cell>, col: nat): (c: Cell)
    ensures col >= |row| ==> c == NA
    ensures col < |row| ==> c == row[col]
  {
    if col < |row| then row[col] else NA
  }

  /** `astype(str)`: text stays as it is, a missing value prints as `nan`. */
  function AsStr(c: Cell): (r: string)
    ensures c.Str? ==> r == c.s
    ensures c.NA? ==> r == "nan"
  {
    match c
    case Str(s) => s
    case NA => "nan"
  }
}
