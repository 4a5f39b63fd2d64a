/** FileProcessingService: the reconciliation of a spreadsheet against a template, and its result slot. */
module Service {
  import opened Wrappers
  import opened Errors
  import opened Sheets
  import opened CellValues
  import opened Stores
  import opened Columns
  import opened Rows

  /**
   * What processFiles computes from a parsed template and the first sheet of the workbook:
   * the checks in the order the code makes them, then the template with its `stores` replaced.
   */
  function Reconcile(template: JsonFile, sheet: Sheet, fmt: Formats): Result<JsonFile, Error>
  {
    if template.stores.None? || |template.stores.value| == 0 then Err(NoStoreEntries)
    else if |sheet| == 0 || sheet[0].None? then Err(NoHeaderRow)
    else
      var header := sheet[0].value;
      if !AllReadable(header) then Err(HeaderCellNotText(FirstUnreadable(header, 0).value))
      else
        var mapping := ColumnMapping(header);
        if |mapping| == 0 then Err(NoValidColumns)
        else
          match ValidateColumnNames(mapping.Values, ExpectedColumns(template.stores.value[0]))
          case Fail(e) => Err(e)
          case Pass => Ok(template.(stores := Some(Records(sheet, mapping, |header|, fmt))))
  }

  /** A template whose `stores` is null or empty is refused, whatever the sheet. */
  lemma ReconcileNeedsStores(template: JsonFile, sheet: Sheet, fmt: Formats)
    ensures Reconcile(template, sheet, fmt) == Err(NoStoreEntries) <==>
              template.stores.None? || template.stores.value == []
  {
  }

  /** Given a usable template, a sheet without row 0 is refused. */
  lemma ReconcileNoHeaderRow(template: JsonFile, sheet: Sheet, fmt: Formats)
    requires template.stores.Some? && template.stores.value != []
    ensures Reconcile(template, sheet, fmt) == Err(NoHeaderRow) <==> |sheet| == 0 || sheet[0].None?
  {
  }

  /** A readable header row names no column exactly when each of its cells is absent or blank. */
  lemma MappingEmptyIffBlank(header: Row)
    requires AllReadable(header)
    ensures |ColumnMapping(header)| == 0 <==>
              forall i :: 0 <= i < |header| ==> header[i].None? || Text.IsBlank(HeaderText(header[i].value).value)
  {
    var mapping := ColumnMapping(header);
    forall i | 0 <= i < |header|
      ensures i in mapping <==> header[i].Some? && !Text.IsBlank(HeaderText(header[i].value).value)
    {
      MappingContents(header, i);
    }
    if |mapping| != 0 {
      var i :| i in mapping;
      MappingContents(header, i);
    }
  }

  /**
   * Given a usable template and a readable header row, the sheet is refused for having no
   * valid column exactly when every header cell is absent or blank.
   */
  lemma ReconcileNoValidColumns(template: JsonFile, sheet: Sheet, fmt: Formats)
    requires template.stores.Some? && template.stores.value != []
    requires |sheet| > 0 && sheet[0].Some? && AllReadable(sheet[0].value)
    ensures Reconcile(template, sheet, fmt) == Err(NoValidColumns) <==>
              forall i :: 0 <= i < |sheet[0].value| ==>
                sheet[0].value[i].None? || Text.IsBlank(HeaderText(sheet[0].value[i].value).value)
  {
    MappingEmptyIffBlank(sheet[0].value);
  }

  /**
   * Once the header is readable and names some column, reconciliation fails iff an expected
   * column is missing from the header's names, and the error lists exactly those missing.
   */
  lemma ReconcileValidation(template: JsonFile, sheet: Sheet, fmt: Formats)
    requires template.stores.Some? && template.stores.value != []
    requires |sheet| > 0 && sheet[0].Some? && AllReadable(sheet[0].value)
    requires |ColumnMapping(sheet[0].value)| != 0
    ensures Reconcile(template, sheet, fmt).Err? <==>
              ExpectedColumns(template.stores.value[0]) - ColumnMapping(sheet[0].value).Values != {}
    ensures Reconcile(template, sheet, fmt).Err? ==>
              Reconcile(template, sheet, fmt).error ==
                ColumnMismatch(ExpectedColumns(template.stores.value[0]) - ColumnMapping(sheet[0].value).Values)
  {
    var header := sheet[0].value;
    var mapping := ColumnMapping(header);
    forall c | c in mapping.Values
      ensures Text.IsLowerCase(c)
    {
      var i :| i in mapping && mapping[i] == c;
      MappingContents(header, i);
    }
    ValidateIsSetDifference(mapping.Values, ExpectedColumns(template.stores.value[0]));
  }

  /**
   * On success the result is the template with only `stores` replaced, by one Store per present
   * data row in row order; every expected column was among the header's names.
   */
  lemma ReconcileSuccess(template: JsonFile, sheet: Sheet, fmt: Formats, out: JsonFile)
    requires Reconcile(template, sheet, fmt) == Ok(out)
    ensures template.stores.Some? && template.stores.value != []
    ensures |sheet| > 0 && sheet[0].Some? && AllReadable(sheet[0].value)
    ensures ExpectedColumns(template.stores.value[0]) <= ColumnMapping(sheet[0].value).Values
    ensures out == template.(stores := out.stores) && out.stores.Some?
    ensures |out.stores.value| == |DataRowIndices(sheet, |sheet|)|
    ensures forall k :: 0 <= k < |out.stores.value| ==>
              DataRowIndices(sheet, |sheet|)[k] < |sheet| && sheet[DataRowIndices(sheet, |sheet|)[k]].Some?
              && out.stores.value[k] ==
                StoreOf(sheet[DataRowIndices(sheet, |sheet|)[k]].value, ColumnMapping(sheet[0].value), |sheet[0].value|, fmt)
  {
    var header := sheet[0].value;
    var mapping := ColumnMapping(header);
    var expected := ExpectedColumns(template.stores.value[0]);
    assert AllReadable(header) && |mapping| != 0;
    ReconcileValidation(template, sheet, fmt);
    assert expected - mapping.Values == {};
    assert out.stores == Some(Records(sheet, mapping, |header|, fmt));
    RecordsFollowDataRows(sheet, mapping, |header|, fmt, |sheet|);
  }

  /**
   * On success, a field of an output Store is set exactly when some header cell names it, and
   * then holds the normalized cell of such a column in its row; so every expected field is set.
   */
  lemma ReconcileFields(template: JsonFile, sheet: Sheet, fmt: Formats, out: JsonFile, k: nat, f: string)
    requires Reconcile(template, sheet, fmt) == Ok(out)
    requires k < |out.stores.value| && f in FieldNames
    ensures k < |DataRowIndices(sheet, |sheet|)| && DataRowIndices(sheet, |sheet|)[k] < |sheet|
            && sheet[DataRowIndices(sheet, |sheet|)[k]].Some?
    ensures Field(out.stores.value[k], f).Some? <==> f in ColumnMapping(sheet[0].value).Values
    ensures Field(out.stores.value[k], f).Some? ==>
              exists c :: c in ColumnMapping(sheet[0].value) && ColumnMapping(sheet[0].value)[c] == f
                && Field(out.stores.value[k], f) ==
                     Some(Normalize(CellAt(sheet[DataRowIndices(sheet, |sheet|)[k]].value, c), fmt))
    ensures f in ExpectedColumns(template.stores.value[0]) ==> Field(out.stores.value[k], f).Some?
  {
    ReconcileSuccess(template, sheet, fmt, out);
    var header := sheet[0].value;
    var row := sheet[DataRowIndices(sheet, |sheet|)[k]].value;
    RecordsFollowDataRows(sheet, ColumnMapping(header), |header|, fmt, |sheet|);
    StoreOfFields(row, ColumnMapping(header), |header|, fmt, f);
  }

  class FileProcessingService {
    /** The renderings of dates and decimals the service relies on. */
    const formats: Formats
    /** The template as last reconciled; None until a reconciliation succeeds. */
    var currentJsonFile: Option<JsonFile>

    constructor (formats: Formats)
      ensures this.formats == formats && currentJsonFile == None
    {
      this.formats := formats;
      currentJsonFile := None;
    }

    /**
     * processFiles: reconcile the sheet against the template. The slot changes only on
     * success, and then holds the template with its `stores` replaced.
     */
    method ProcessFiles(template: JsonFile, sheet: Sheet) returns (outcome: Outcome<Error>)
      modifies this
      ensures outcome == match Reconcile(template, sheet, formats)
                         case Ok(_) => Pass
                         case Err(e) => Fail(e)
      ensures currentJsonFile == match Reconcile(template, sheet, formats)
                                 case Ok(out) => Some(out)
                                 case Err(_) => old(currentJsonFile)
    {
      if template.stores.None? || |template.stores.value| == 0 {
        return Fail(NoStoreEntries);
      }
      var firstStore := template.stores.value[0];
      var expectedColumns := ExpectedColumns(firstStore);

      if |sheet| == 0 || sheet[0].None? {
        return Fail(NoHeaderRow);
      }
      var headerRow := sheet[0].value;
      var columnMapping, excelColumns, failure := ReadHeader(headerRow);
      if failure.Some? {
        return Fail(failure.value);
      }
      if |columnMapping| == 0 {
        return Fail(NoValidColumns);
      }
      var validation := ValidateColumnNames(excelColumns, expectedColumns);
      if validation.Fail? {
        return validation;
      }
      var stores := BuildStores(sheet, columnMapping, |headerRow|, formats);
      currentJsonFile := Some(template.(stores := Some(stores)));
      return Pass;
    }

    /** getUpdatedJsonFile: the last reconciled template, or an error when there is none. */
    method GetUpdatedJsonFile() returns (r: Result<JsonFile, Error>)
      ensures currentJsonFile.None? <==> r == Err(NoProcessedFile)
      ensures currentJsonFile.Some? ==> r == Ok(currentJsonFile.value)
    {
      if currentJsonFile.None? {
        return Err(NoProcessedFile);
      }
      return Ok(currentJsonFile.value);
    }
  }
}
