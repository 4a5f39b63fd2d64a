/** The ways a call into FileProcessingService can fail, one per exception it throws or lets escape. */
module Errors {

  datatype Error =
    /** The template's `stores` list is null or empty. */
    | NoStoreEntries
    /** The sheet has no row 0. */
    | NoHeaderRow
    /** A header cell whose text cannot be read (POI's getStringCellValue throws on it). */
    | HeaderCellNotText(column: nat)
    /** No header cell yields a non-blank name. */
    | NoValidColumns
    /** Some expected columns are missing from the sheet; `missing` names them as in the template. */
    | ColumnMismatch(missing: set<string>)
    /** The result is asked for before any reconciliation has succeeded. */
    | NoProcessedFile
}
