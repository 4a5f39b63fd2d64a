/**
 * One reconciliation worked through: a template whose first store has a name and an address,
 * against a sheet whose header is "name", " Address " and whose one data row is
 * ("Acme", "123 Main St").
 */
module Scenario {
  import opened Wrappers
  import opened Sheets
  import opened CellValues
  import opened Stores
  import opened Columns
  import opened Rows
  import opened Text
  import opened Service

  /** trim() drops the spaces around a header, and only those. */
  lemma TrimExample()
    ensures Trim(" Address ") == "Address"
  {
    assert " Address "[1..] == "Address ";
    assert !IsSpace("Address "[0]);
    assert "Address " == "Address" + " ";
    assert "Address "[..7] == "Address";
    assert !IsSpace("Address"[6]);
  }

  /** toLowerCase() lowers the capital letter and keeps the rest. */
  lemma ToLowerExample()
    ensures ToLower("Address") == "address"
  {
  }

  /** The header cell " Address " names the column "address". */
  lemma AddressHeaderExample()
    ensures HeaderName(Some(TextCell(" Address "))) == "address"
  {
    TrimExample();
    ToLowerExample();
  }

  /** The header cell "name" names the column "name". */
  lemma NameHeaderExample()
    ensures HeaderName(Some(TextCell("name"))) == "name"
  {
    assert Trim("name") == "name" && ToLower("name") == "name";
  }

  /** The header row names its columns "name" and "address". */
  lemma HeaderNamesExample(header: Row)
    requires header == [Some(TextCell("name")), Some(TextCell(" Address "))]
    ensures AllReadable(header)
    ensures HeaderNames(header) == ["name", "address"]
  {
    NameHeaderExample();
    AddressHeaderExample();
    HeaderNamesOfPair(header[0], header[1]);
  }

  /** A two-cell header row names its columns cell by cell. */
  lemma HeaderNamesOfPair(a: Option<Cell>, b: Option<Cell>)
    requires Readable(a) && Readable(b)
    ensures AllReadable([a, b])
    ensures HeaderNames([a, b]) == [HeaderName(a), HeaderName(b)]
  {
  }

  /** The names "name" and "address" map column 0 and column 1. */
  lemma MappingOfExample(names: seq<string>)
    requires names == ["name", "address"]
    ensures MappingOf(names) == map[0 := "name", 1 := "address"]
    ensures MappingOf(names).Values == {"name", "address"}
  {
    assert names == [] + ["name"] + ["address"];
    assert MappingOf([]) == map[];
    MappingOfStep([], "name");
    MappingOfStep(["name"], "address");
    var empty: map<nat, string> := map[];
    ValuesOfUpdate(empty, 0, "name");
    ValuesOfUpdate(empty[0 := "name"], 1, "address");
  }

  /** The header row maps column 0 to "name" and column 1 to "address". */
  lemma MappingExample(header: Row)
    requires header == [Some(TextCell("name")), Some(TextCell(" Address "))]
    ensures AllReadable(header)
    ensures ColumnMapping(header) == map[0 := "name", 1 := "address"]
    ensures ColumnMapping(header).Values == {"name", "address"}
  {
    HeaderNamesExample(header);
    MappingOfExample(HeaderNames(header));
  }

  /** The template expects "name" and "address", and the sheet has both. */
  lemma ValidationExample()
    ensures ExpectedColumns(Store(None, Some("Main St"), Some("Shop"), None, None)) == {"address", "name"}
    ensures ValidateColumnNames({"name", "address"}, {"address", "name"}) == Pass
  {
    ValidateIsSetDifference({"name", "address"}, {"address", "name"});
  }

  /** The one data row becomes one store with its name and address set and nothing else. */
  lemma RecordsExample(sheet: Sheet, fmt: Formats)
    requires sheet == [Some([Some(TextCell("name")), Some(TextCell(" Address "))]),
                       Some([Some(TextCell("Acme")), Some(TextCell("123 Main St"))])]
    ensures Records(sheet, map[0 := "name", 1 := "address"], 2, fmt)
            == [Store(None, Some("123 Main St"), Some("Acme"), None, None)]
  {
    assert DataRowIndices(sheet, 2) == [1];
    assert StoreOf(sheet[1].value, map[0 := "name", 1 := "address"], 2, fmt)
           == Store(None, Some("123 Main St"), Some("Acme"), None, None);
  }

  /** The whole reconciliation: the stores are replaced by the one built from the sheet. */
  lemma ReconcileExample(template: JsonFile, sheet: Sheet, fmt: Formats)
    requires template == JsonFile(Some([Store(None, Some("Main St"), Some("Shop"), None, None)]))
    requires sheet == [Some([Some(TextCell("name")), Some(TextCell(" Address "))]),
                       Some([Some(TextCell("Acme")), Some(TextCell("123 Main St"))])]
    ensures Reconcile(template, sheet, fmt)
            == Ok(JsonFile(Some([Store(None, Some("123 Main St"), Some("Acme"), None, None)])))
  {
    MappingExample(sheet[0].value);
    ValidationExample();
    RecordsExample(sheet, fmt);
  }
}
