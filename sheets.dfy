/** The first sheet of a workbook, as the reconciliation reads it. */
module Sheets {
  import opened Wrappers

  /** The value a formula cell has cached from its last evaluation. */
  datatype Cached = CachedNumber(number: real) | CachedText(text: string)

  /** One cell, by the kind POI reports for it. Numbers are reals; a double is one of them. */
  datatype Cell =
    | TextCell(text: string)
    | NumericCell(number: real, dateFormatted: bool)
    | BooleanCell(flag: bool)
    | FormulaCell(cached: Cached)
    | BlankCell
    | ErrorCell

  /** A row: cell `i` is absent (null) or present. */
  type Row = seq<Option<Cell>>

  /** A sheet: row `i` is absent (null) or present; the last index is the sheet's last row number. */
  type Sheet = seq<Option<Row>>

  /** Row.getCell: a cell beyond the row's last one is absent. */
  function CellAt(row: Row, i: nat): Option<Cell>
  {
    if i < |row| then row[i] else None
  }
}
