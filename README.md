# Excel-to-JSON store reconciliation, modelled in Dafny

The backend service takes two uploads: a JSON template (a `JsonFile` holding a list of `Store`
records) and an Excel workbook. It checks the first sheet's header row against the fields
that the template's first store sets. Then it builds one `Store` per data row and replaces the
template's store list with them. The result is kept in a slot, `currentJsonFile`, which
`getUpdatedJsonFile` reads and the next successful upload replaces. This project models that reconciliation in `FileProcessingService`:

- `processFiles`, and the order of its checks: the template has stores; the sheet has a header
  row; every header cell can be read as text; at least one column is named; no expected column
  is missing.
- The header loop. Each cell's text is trimmed and lower-cased. A non-empty name goes into the
  column mapping (column index to name) and into the set of sheet columns.
- `validateColumnNames`: a case-insensitive set difference whose error lists the missing names.
- The row loop. For each present row, a fresh `Store`. Each mapped column then calls the setter
  its name selects, with the normalized cell text.
- `getCellValueAsString`, over every kind of cell.
- The `currentJsonFile` slot, and `getUpdatedJsonFile`, which fails when the slot is empty.

The modules follow that structure:

- `Wrappers`: `Option`, `Result`, `Outcome`.
- `Errors`: one constructor per exception that `processFiles` and `getUpdatedJsonFile` throw.
- `Sheets`: cells, rows and sheets as POI presents them.
- `Text`: `String.trim()` and `String.toLowerCase()`.
- `CellValues`: the cell normalizer.
- `Stores`: the template records and their field dispatch.
- `Columns`: the header row and validation.
- `Rows`: the data rows.
- `Service`: the whole reconciliation as a function (`Reconcile`). Besides it sits a class
  `FileProcessingService` whose methods follow the Java step by step and are proved equal to it.
- `Scenario`: one reconciliation worked through to its result.

How the model reads the source's types:

- An exception is an `Err`/`Fail` value.
- A parsed workbook is a `Sheet`: a sequence of optional rows. Row `i` is `sheet.getRow(i)`, and
  `|sheet| - 1` is `getLastRowNum()`.
- A row is a sequence of optional cells. For the header, its length is `getLastCellNum()`.
- A Java `null` is `None`.
- A `Store` is a value: the Java code builds each one fresh and never shares it.

Behaviour of the code worth noting:

- A present data row whose cells are all empty still yields a Store, whose mapped fields are
  `""` (`Rows.BlankRowKept`).
- The expected columns always come from the first store, and any missing one fails.
- `getUpdatedJsonFile` throws when nothing has been processed (`NoProcessedFile`).
- A header cell that is neither text, blank nor a formula with text makes POI's
  `getStringCellValue` throw. That exception escapes `processFiles`, and the model reports it
  as `HeaderCellNotText` with the first such column.

## Model

Every row cites the service class, except `Stores.StoreByFields`. That row cites the Store
shape declared in the frontend's types.

The functions that compute are these:

- `Service.Reconcile` is `processFiles`.
- `CellValues.Normalize` is `getCellValueAsString`.
- `Text.Trim` and `Text.ToLower` are `trim()` and `toLowerCase()`.
- `Columns.HeaderName` is the name of one header cell.
- `Columns.ColumnMapping` is the mapping of the header row.
- `Columns.ValidateColumnNames` is `validateColumnNames`.
- `Rows.StoreOf` is the Store of one data row.
- `Rows.Records` is the Stores of all the rows.

They carry no contract of their own, apart from `ValidateColumnNames`. Their behaviour is stated
by the lemmas and methods in the table below.

`JsonFile` has one field, `stores` (frontend/src/types/index.ts:9-11). So the clause of
`Service.ReconcileSuccess` that only `stores` changes holds by construction. The content of the
new `stores` is what that lemma actually states.

| member | source | states |
|---|---|---|
| Text.TrimStart | backend/src/main/java/com/example/exceltojson/service/FileProcessingService.java:57 | the result is a suffix of the text, every character removed is at or below U+0020, and the first character kept is not |
| Text.TrimEnd | backend/src/main/java/com/example/exceltojson/service/FileProcessingService.java:57 | the result is a prefix, every character removed is whitespace in trim()'s sense, and the last character kept is not |
| Text.TrimProperties | backend/src/main/java/com/example/exceltojson/service/FileProcessingService.java:57-58 | trim() never lengthens, yields "" exactly for an all-whitespace name, and otherwise starts and ends with a non-whitespace character |
| Text.ToLowerProperties | backend/src/main/java/com/example/exceltojson/service/FileProcessingService.java:57 | the model's lower-casing keeps the length, turns each capital A to Z into the same letter in lower case, and changes no other character |
| Text.LowerCaseIsFixed | backend/src/main/java/com/example/exceltojson/service/FileProcessingService.java:115-120 | a name already in lower case is unchanged by lower-casing, so re-lowering the sheet's names changes nothing |
| Text.ToLowerIdempotent | backend/src/main/java/com/example/exceltojson/service/FileProcessingService.java:115-117 | lower-casing twice equals lower-casing once |
| CellValues.Digits | backend/src/main/java/com/example/exceltojson/service/FileProcessingService.java:167-168 | the digits of a natural number are non-empty, all decimal digits, with no leading zero |
| CellValues.DigitsRoundTrip | backend/src/main/java/com/example/exceltojson/service/FileProcessingService.java:167-168 | reading the digits of n back gives n |
| CellValues.NumeralRoundTrip | backend/src/main/java/com/example/exceltojson/service/FileProcessingService.java:167-168 | the rendering of any integer is a canonical numeral (no leading zero, no "-0") without a decimal point that reads back as that integer |
| CellValues.DigitsOfValue | backend/src/main/java/com/example/exceltojson/service/FileProcessingService.java:167-168 | a digit string without a leading zero is the rendering of its own value |
| CellValues.NumeralOfValue | backend/src/main/java/com/example/exceltojson/service/FileProcessingService.java:167-168 | a canonical numeral is the rendering of its own value |
| CellValues.CanonicalNumeralUnique | backend/src/main/java/com/example/exceltojson/service/FileProcessingService.java:167-168 | two canonical numerals with the same value are the same string, so the integral rendering is fixed by its value |
| CellValues.NormalizeEmptyKinds | backend/src/main/java/com/example/exceltojson/service/FileProcessingService.java:153-156 | a missing cell, a blank cell and an error cell read as "" |
| CellValues.NormalizeTextVerbatim | backend/src/main/java/com/example/exceltojson/service/FileProcessingService.java:159-160 | a text cell reads as its text, untrimmed |
| CellValues.NormalizeBooleanRoundTrip | backend/src/main/java/com/example/exceltojson/service/FileProcessingService.java:171-172 | a boolean cell reads as "true" or "false", and Boolean.parseBoolean of that text is the cell's value |
| CellValues.NormalizeIntegral | backend/src/main/java/com/example/exceltojson/service/FileProcessingService.java:166-168 | an integral, not date-formatted number reads as a canonical integer numeral, with no decimal point, no leading zero and no "-0", whose value is the number |
| CellValues.NormalizeOtherNumbers | backend/src/main/java/com/example/exceltojson/service/FileProcessingService.java:161-170 | a date-formatted number goes to the date rendering, and a fractional one to String.valueOf(double) |
| CellValues.NormalizeFormula | backend/src/main/java/com/example/exceltojson/service/FileProcessingService.java:173-178 | a formula reads as String.valueOf of its cached number, and its cached text only when the cached value is not numeric |
| CellValues.NormalizeFortyTwo | backend/src/main/java/com/example/exceltojson/service/FileProcessingService.java:165-168 | 42.0 reads as "42" |
| Stores.StoreByFields | frontend/src/types/index.ts:1-7 | two Stores with equal template, name, address, logo and email fields are equal |
| Stores.SetField | backend/src/main/java/com/example/exceltojson/service/FileProcessingService.java:85-101 | the column name selects one setter: that field becomes the value, every other field is kept, and an unknown name changes nothing |
| Stores.ExpectedColumns | backend/src/main/java/com/example/exceltojson/service/FileProcessingService.java:33-39 | the expected columns are exactly the field names whose value is non-null in the first store |
| Stores.FieldNamesAreLowerCase | backend/src/main/java/com/example/exceltojson/service/FileProcessingService.java:35-39 | the expected names are lower case, so lower-casing them changes nothing |
| Columns.MappingOfStep | backend/src/main/java/com/example/exceltojson/service/FileProcessingService.java:54-62 | one more header cell adds its column under its name when the name is non-empty, and leaves the mapping as it was otherwise |
| Columns.FirstUnreadable | backend/src/main/java/com/example/exceltojson/service/FileProcessingService.java:54-57 | the first header cell from a position whose text cannot be read, or none exactly when all can be read |
| Columns.MappingContents | backend/src/main/java/com/example/exceltojson/service/FileProcessingService.java:52-63 | a column is in the mapping iff its header cell exists and its text has a non-whitespace character; it is then mapped to that text trimmed and lower-cased |
| Columns.ReadHeaderStep | backend/src/main/java/com/example/exceltojson/service/FileProcessingService.java:55-61 | reading one more readable cell extends the names seen, and adds the column to both the mapping and the name set exactly when its name is non-empty |
| Columns.ReadHeaderStops | backend/src/main/java/com/example/exceltojson/service/FileProcessingService.java:54-57 | the first cell the loop cannot read is the first unreadable cell of the row |
| Columns.ReadHeader | backend/src/main/java/com/example/exceltojson/service/FileProcessingService.java:52-63 | the header loop fails at the first unreadable cell, and otherwise yields exactly the column mapping and the set of its names |
| Columns.ValidateColumnNames | backend/src/main/java/com/example/exceltojson/service/FileProcessingService.java:113-141 | it fails iff some expected name, lower-cased, is not among the lower-cased sheet columns, and the error lists exactly those expected names |
| Columns.ExtraColumnsNeverFail | backend/src/main/java/com/example/exceltojson/service/FileProcessingService.java:122-127 | extra sheet columns never turn a pass into a failure |
| Columns.ValidateIsSetDifference | backend/src/main/java/com/example/exceltojson/service/FileProcessingService.java:113-141 | for lower-case sheet columns and field-name expectations, it fails iff expected minus present is non-empty, and reports exactly that difference |
| Rows.LastColumnNamed | backend/src/main/java/com/example/exceltojson/service/FileProcessingService.java:80-82 | the last column before a bound with a given name, or none exactly when no column before it has that name |
| Rows.StoreOfStep | backend/src/main/java/com/example/exceltojson/service/FileProcessingService.java:80-101 | visiting one more column applies its setter with its normalized cell if it is mapped, and nothing otherwise |
| Rows.StoreOfFields | backend/src/main/java/com/example/exceltojson/service/FileProcessingService.java:77-102 | a field of a row's Store is null iff no column is mapped to it, and otherwise holds the normalized cell of the rightmost such column |
| Rows.LastColumnNamedRecognised | backend/src/main/java/com/example/exceltojson/service/FileProcessingService.java:85-101 | dropping the columns whose name selects no field does not change which column last sets a field |
| Rows.UnrecognisedColumnsIgnored | backend/src/main/java/com/example/exceltojson/service/FileProcessingService.java:85-101 | columns whose name matches no case of the switch do not change the Store built from a row |
| Rows.BuildStore | backend/src/main/java/com/example/exceltojson/service/FileProcessingService.java:77-102 | the Store the column loop builds is the row's Store in the model: each field from the rightmost column mapped to it |
| Rows.DataRowIndicesProperties | backend/src/main/java/com/example/exceltojson/service/FileProcessingService.java:73-75 | the data rows are listed in strictly ascending order, and a row is listed iff it is a present row after the header |
| Rows.RecordsFollowDataRows | backend/src/main/java/com/example/exceltojson/service/FileProcessingService.java:73-105 | there is one Store per present data row, and the k-th Store is built from the k-th such row |
| Rows.BlankRowKept | backend/src/main/java/com/example/exceltojson/service/FileProcessingService.java:74-104 | a present row whose cells are all absent, blank, errors or empty text is not skipped, and its Store has every field null or "" |
| Rows.BuildStores | backend/src/main/java/com/example/exceltojson/service/FileProcessingService.java:73-105 | the row loop yields exactly the model's Stores of the sheet, in row order |
| Service.ReconcileNeedsStores | backend/src/main/java/com/example/exceltojson/service/FileProcessingService.java:28-30 | the template is refused with "no store entries" iff its stores are null or empty |
| Service.ReconcileNoHeaderRow | backend/src/main/java/com/example/exceltojson/service/FileProcessingService.java:44-49 | given a usable template, the sheet is refused for lacking a header iff row 0 is absent |
| Service.MappingEmptyIffBlank | backend/src/main/java/com/example/exceltojson/service/FileProcessingService.java:52-67 | a readable header names no column iff each of its cells is absent or blank |
| Service.ReconcileNoValidColumns | backend/src/main/java/com/example/exceltojson/service/FileProcessingService.java:65-67 | after a readable header, "no valid columns" is reported iff every header cell is absent or blank |
| Service.ReconcileValidation | backend/src/main/java/com/example/exceltojson/service/FileProcessingService.java:69-70 | once the header names a column, reconciliation fails iff an expected column is missing, and reports exactly the missing ones |
| Service.ReconcileSuccess | backend/src/main/java/com/example/exceltojson/service/FileProcessingService.java:24-110 | on success every check passed, only the template's stores changed, and they are one Store per present data row in row order |
| Service.ReconcileFields | backend/src/main/java/com/example/exceltojson/service/FileProcessingService.java:77-104 | on success a Store's field is set iff some header cell names it, holds that column's normalized cell, and every expected field is set |
| Service.FileProcessingService.constructor | backend/src/main/java/com/example/exceltojson/service/FileProcessingService.java:21-22 | a new service has no processed file |
| Service.FileProcessingService.ProcessFiles | backend/src/main/java/com/example/exceltojson/service/FileProcessingService.java:24-111 | processFiles reports the reconciliation's outcome; the slot holds the result on success and is unchanged on failure |
| Service.FileProcessingService.GetUpdatedJsonFile | backend/src/main/java/com/example/exceltojson/service/FileProcessingService.java:143-150 | retrieval fails iff nothing has been processed, and otherwise returns the stored document |
| Scenario.TrimExample | backend/src/main/java/com/example/exceltojson/service/FileProcessingService.java:57 | " Address " trims to "Address" |
| Scenario.ToLowerExample | backend/src/main/java/com/example/exceltojson/service/FileProcessingService.java:57 | "Address" lower-cases to "address" |
| Scenario.AddressHeaderExample | backend/src/main/java/com/example/exceltojson/service/FileProcessingService.java:57 | the header cell " Address " names the column "address" |
| Scenario.NameHeaderExample | backend/src/main/java/com/example/exceltojson/service/FileProcessingService.java:57 | the header cell "name" names the column "name" |
| Scenario.HeaderNamesOfPair | backend/src/main/java/com/example/exceltojson/service/FileProcessingService.java:54-57 | a two-cell header names its columns cell by cell |
| Scenario.HeaderNamesExample | backend/src/main/java/com/example/exceltojson/service/FileProcessingService.java:54-57 | the header ("name", " Address ") is readable and names its columns "name" and "address" |
| Scenario.MappingOfExample | backend/src/main/java/com/example/exceltojson/service/FileProcessingService.java:58-61 | the names "name" and "address" map columns 0 and 1, and the sheet columns are {"name", "address"} |
| Scenario.MappingExample | backend/src/main/java/com/example/exceltojson/service/FileProcessingService.java:52-63 | that header row maps column 0 to "name" and column 1 to "address" |
| Scenario.ValidationExample | backend/src/main/java/com/example/exceltojson/service/FileProcessingService.java:33-39 | a first store with a name and an address expects {"address", "name"}, and a sheet with both passes |
| Scenario.RecordsExample | backend/src/main/java/com/example/exceltojson/service/FileProcessingService.java:73-105 | the one data row ("Acme", "123 Main St") becomes one Store with name and address set and the rest null |
| Scenario.ReconcileExample | backend/src/main/java/com/example/exceltojson/service/FileProcessingService.java:24-110 | the whole reconciliation replaces the template's stores by that one Store |

## Left out

- JSON parsing and writing (Jackson's `ObjectMapper`) are not modelled: the template arrives as a
  parsed `JsonFile`. `GetUpdatedJsonFile` returns the stored `JsonFile` rather than its
  serialized bytes. Its failure case is modelled.
- Reading the workbook (`XSSFWorkbook`, `MultipartFile` streams, `IOException`) is not modelled:
  the first sheet arrives as a parsed `Sheet`.
- `String.valueOf(double)` and `LocalDateTime.toString()` are not modelled. They are the two
  fields of `Formats`, left uninterpreted because they are library formatting code.
- Numbers are reals, not IEEE doubles. NaN and the infinities are not modelled.
- CellValues.Normalize: for integral numbers, `String.format("%.0f", v)` is the exact integer
  numeral. That matches Java for every double within 2^53, under a default format locale whose
  zero digit is '0'. Java's `Formatter` localizes digits, so other locales give other digits.
  The model differs for `-0.0`: a real cannot represent it. Java renders it as "-0", and the
  model's zero renders as "0".
- Whether a numeric cell is date-formatted (`DateUtil.isCellDateFormatted`) is a flag on the
  cell value. It is not computed from the cell's style.
- Text.ToLower: `toLowerCase()` is modelled on the letters A to Z only, and so is every header
  name built by Columns.HeaderName. Java's locale-sensitive Unicode case mapping is not
  modelled: there "É" becomes "é", and "İ" becomes two characters, so the length can change.
- Rows.BuildStore: the column mapping is a `HashMap`, and it is visited in ascending column
  order. Java's `HashMap` gives that order while every mapped index is below the table's
  capacity (16 or more). With several columns of the same name, the rightmost one then sets the
  field.
- A formula whose cached value is a boolean or an error is not modelled. There POI's
  `getStringCellValue` throws, and the exception escapes the normalizer.
- A null first store in the template's store list is not modelled. In the source it makes
  `processFiles` throw a `NullPointerException` (lines 33 and 35). A null entry after the first
  is never read, and the list is replaced on success.
- Service.ReconcileValidation: the error carries the set of missing names, not the message text.
  The Java joins those names in `HashSet` iteration order, which is unspecified.
- The HTTP controller, the frontend, and concurrent requests sharing the one service instance
  are not part of this model.
