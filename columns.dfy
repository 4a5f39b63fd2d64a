/** The header row: the column mapping built from row 0, and validateColumnNames. */
module Columns {
  import opened Wrappers
  import opened Errors
  import opened Sheets
  import opened Text
  import opened Stores

  /**
   * getStringCellValue on a header cell: the text of a text cell, "" for a blank cell, the
   * cached text of a formula; POI throws on every other kind.
   */
  function HeaderText(c: Cell): Option<string>
  {
    match c
    case TextCell(text) => Some(text)
    case BlankCell => Some("")
    case FormulaCell(CachedText(text)) => Some(text)
    case _ => None
  }

  /** A header cell the loop gets past: absent, or one whose text can be read. */
  predicate Readable(c: Option<Cell>)
  {
    c.None? || HeaderText(c.value).Some?
  }

  predicate AllReadable(header: Row)
  {
    forall i :: 0 <= i < |header| ==> Readable(header[i])
  }

  /** The name a header cell gives its column: trimmed and lower-cased; "" for an absent cell. */
  function HeaderName(c: Option<Cell>): string
    requires Readable(c)
  {
    if c.None? then "" else ToLower(Trim(HeaderText(c.value).value))
  }

  /** The name each header cell gives its column, in column order. */
  function HeaderNames(header: Row): seq<string>
    requires AllReadable(header)
  {
    seq(|header|, i requires 0 <= i < |header| => HeaderName(header[i]))
  }

  /** The columns whose name is not empty, each to its name. */
  function MappingOf(names: seq<string>): map<nat, string>
  {
    map i: nat | i < |names| && names[i] != "" :: names[i]
  }

  /** The column mapping: every column whose header cell yields a non-empty name, to that name. */
  function ColumnMapping(header: Row): map<nat, string>
    requires AllReadable(header)
  {
    MappingOf(HeaderNames(header))
  }

  /** Reading one more header cell adds at most that column, under its name. */
  lemma MappingOfStep(names: seq<string>, name: string)
    ensures |names| !in MappingOf(names)
    ensures MappingOf(names + [name]) ==
              if name != "" then MappingOf(names)[|names| := name] else MappingOf(names)
  {
  }

  lemma ValuesOfUpdate(m: map<nat, string>, k: nat, v: string)
    requires k !in m
    ensures m[k := v].Values == m.Values + {v}
  {
    assert m[k := v][k] == v;
    forall w | w in m.Values
      ensures w in m[k := v].Values
    {
      var j :| j in m && m[j] == w;
      assert m[k := v][j] == w;
    }
  }

  /** The first column at or after `from` whose header cell cannot be read. */
  function FirstUnreadable(header: Row, from: nat): (k: Option<nat>)
    ensures k.None? <==> forall i :: from <= i < |header| ==> Readable(header[i])
    ensures k.Some? ==> from <= k.value < |header| && !Readable(header[k.value])
    ensures k.Some? ==> forall i :: from <= i < k.value ==> Readable(header[i])
    decreases |header| - from
  {
    if from >= |header| then None
    else if !Readable(header[from]) then Some(from)
    else FirstUnreadable(header, from + 1)
  }

  /**
   * A column is mapped exactly when its header cell is present and holds a non-whitespace
   * character; its name is then that cell's text, trimmed and lower-cased, and it is lower case.
   */
  lemma MappingContents(header: Row, i: nat)
    requires AllReadable(header)
    ensures i in ColumnMapping(header) <==>
              i < |header| && header[i].Some? && !IsBlank(HeaderText(header[i].value).value)
    ensures i in ColumnMapping(header) ==>
              ColumnMapping(header)[i] == ToLower(Trim(HeaderText(header[i].value).value))
              && IsLowerCase(ColumnMapping(header)[i])
  {
    if i < |header| {
      var names := HeaderNames(header);
      assert names[i] == HeaderName(header[i]);
      if header[i].Some? {
        var text := HeaderText(header[i].value).value;
        TrimProperties(text);
        ToLowerProperties(Trim(text));
        assert names[i] == ToLower(Trim(text));
      }
    }
  }

  /** What the header loop knows after the cells before `i`: their names, the mapping and its values. */
  predicate HeaderRead(header: Row, i: nat, seen: seq<string>, mapping: map<nat, string>, columns: set<string>)
  {
    && i <= |header| && |seen| == i
    && (forall k :: 0 <= k < i ==> Readable(header[k]) && seen[k] == HeaderName(header[k]))
    && mapping == MappingOf(seen)
    && columns == mapping.Values
  }

  /** Reading the readable cell `i` keeps HeaderRead, with the loop's own update of the mapping. */
  lemma ReadHeaderStep(header: Row, i: nat, seen: seq<string>, mapping: map<nat, string>, columns: set<string>)
    requires HeaderRead(header, i, seen, mapping, columns)
    requires i < |header| && Readable(header[i])
    ensures var name := HeaderName(header[i]);
            if name != "" then HeaderRead(header, i + 1, seen + [name], mapping[i := name], columns + {name})
            else HeaderRead(header, i + 1, seen + [name], mapping, columns)
  {
    var name := HeaderName(header[i]);
    MappingOfStep(seen, name);
    if name != "" {
      ValuesOfUpdate(mapping, i, name);
    }
  }

  /** A loop that stops at the unreadable cell `i` stops at the first one. */
  lemma ReadHeaderStops(header: Row, i: nat)
    requires i < |header| && !Readable(header[i])
    requires forall k :: 0 <= k < i ==> Readable(header[k])
    ensures !AllReadable(header) && FirstUnreadable(header, 0) == Some(i)
  {
  }

  /** A loop that reads every cell has seen the header's names. */
  lemma ReadHeaderDone(header: Row, seen: seq<string>, mapping: map<nat, string>, columns: set<string>)
    requires HeaderRead(header, |header|, seen, mapping, columns)
    ensures AllReadable(header) && mapping == ColumnMapping(header) && columns == mapping.Values
  {
    assert seen == HeaderNames(header);
  }

  /**
   * FileProcessingService.java, lines 52-63: read the header row from left to right into the
   * column mapping and the set of column names, stopping at the first cell whose text cannot
   * be read.
   */
  method ReadHeader(header: Row) returns (mapping: map<nat, string>, columns: set<string>, failure: Option<Error>)
    ensures failure.None? <==> AllReadable(header)
    ensures failure.Some? ==> failure == Some(HeaderCellNotText(FirstUnreadable(header, 0).value))
    ensures failure.None? ==> mapping == ColumnMapping(header) && columns == mapping.Values
  {
    mapping, columns, failure := map[], {}, None;
    ghost var seen: seq<string> := [];
    var i := 0;
    while i < |header|
      invariant HeaderRead(header, i, seen, mapping, columns)
    {
      var cell := header[i];
      var columnName := "";
      if cell.Some? {
        var text := HeaderText(cell.value);
        if text.None? {
          ReadHeaderStops(header, i);
          failure := Some(HeaderCellNotText(i));
          return;
        }
        columnName := ToLower(Trim(text.value));
      }
      ReadHeaderStep(header, i, seen, mapping, columns);
      if columnName != "" {
        mapping := mapping[i := columnName];
        columns := columns + {columnName};
      }
      seen := seen + [columnName];
      i := i + 1;
    }
    ReadHeaderDone(header, seen, mapping, columns);
  }

  /** A set of names, lower-cased. */
  function Lowered(names: set<string>): set<string>
  {
    set c | c in names :: ToLower(c)
  }

  /**
   * validateColumnNames: fails exactly when some expected name, lower-cased, is not among the
   * lower-cased sheet columns, and then lists every such expected name in its original case.
   */
  function ValidateColumnNames(excelColumns: set<string>, expectedColumns: set<string>): (r: Outcome<Error>)
    ensures r.Fail? <==> exists e :: e in expectedColumns && ToLower(e) !in Lowered(excelColumns)
    ensures r.Fail? ==> r.error == ColumnMismatch(set e | e in expectedColumns && ToLower(e) !in Lowered(excelColumns))
  {
    var excelLower := Lowered(excelColumns);
    var expectedLower := Lowered(expectedColumns);
    var missingColumns := set c | c in expectedLower && c !in excelLower;
    MissingColumnsOfExpected(expectedColumns, excelLower, missingColumns);
    if missingColumns != {} then
      var missingOriginalCase := set c | c in expectedColumns && ToLower(c) in missingColumns;
      assert missingOriginalCase == set e | e in expectedColumns && ToLower(e) !in excelLower;
      Fail(ColumnMismatch(missingOriginalCase))
    else
      Pass
  }

  /** An expected name is missing exactly when its lower-case form is not among the sheet's. */
  lemma MissingColumnsOfExpected(expectedColumns: set<string>, excelLower: set<string>, missingColumns: set<string>)
    requires missingColumns == set c | c in Lowered(expectedColumns) && c !in excelLower
    ensures forall e :: e in expectedColumns ==> (ToLower(e) in missingColumns <==> ToLower(e) !in excelLower)
    ensures missingColumns != {} <==> exists e :: e in expectedColumns && ToLower(e) !in excelLower
  {
    forall e | e in expectedColumns
      ensures ToLower(e) in Lowered(expectedColumns)
    {
    }
    if missingColumns != {} {
      var c :| c in missingColumns;
      var e :| e in expectedColumns && c == ToLower(e);
    }
  }

  /** Columns the template does not expect never make validation fail. */
  lemma ExtraColumnsNeverFail(excelColumns: set<string>, extra: set<string>, expectedColumns: set<string>)
    requires ValidateColumnNames(excelColumns, expectedColumns).Pass?
    ensures ValidateColumnNames(excelColumns + extra, expectedColumns).Pass?
  {
    assert Lowered(excelColumns) <= Lowered(excelColumns + extra);
  }

  /**
   * With lower-case sheet columns (as the mapping yields) and expected names drawn from the
   * field names, validation computes `expected - present`: it fails iff that set is non-empty,
   * and the error lists exactly that set.
   */
  lemma ValidateIsSetDifference(present: set<string>, expected: set<string>)
    requires forall c :: c in present ==> IsLowerCase(c)
    requires expected <= FieldNames
    ensures ValidateColumnNames(present, expected).Fail? <==> expected - present != {}
    ensures ValidateColumnNames(present, expected).Fail? ==>
              ValidateColumnNames(present, expected).error == ColumnMismatch(expected - present)
  {
    forall c | c in present
      ensures ToLower(c) == c
    {
      LowerCaseIsFixed(c);
    }
    assert Lowered(present) == present;
    forall e | e in expected
      ensures ToLower(e) == e
    {
      FieldNamesAreLowerCase(e);
    }
    assert (set e | e in expected && ToLower(e) !in Lowered(present)) == expected - present;
  }
}
