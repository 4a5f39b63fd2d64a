/** The data rows: one Store per present row, each field filled from the columns mapped to it. */
module Rows {
  import opened Wrappers
  import opened Sheets
  import opened CellValues
  import opened Stores

  /**
   * The last column before `n` that the mapping names `f`. The columns are taken in ascending
   * order, so when several carry the same name the rightmost one is the one that sticks.
   */
  function LastColumnNamed(mapping: map<nat, string>, f: string, n: nat): (k: Option<nat>)
    ensures k.None? <==> forall j :: j in mapping && j < n ==> mapping[j] != f
    ensures k.Some? ==> k.value < n && k.value in mapping && mapping[k.value] == f
    ensures k.Some? ==> forall j :: j in mapping && k.value < j < n ==> mapping[j] != f
    decreases n
  {
    if n == 0 then None
    else if n - 1 in mapping && mapping[n - 1] == f then Some(n - 1)
    else LastColumnNamed(mapping, f, n - 1)
  }

  /** The value field `f` ends with after the columns before `width` have been visited. */
  function ValueFor(row: Row, mapping: map<nat, string>, f: string, width: nat, fmt: Formats): Option<string>
  {
    match LastColumnNamed(mapping, f, width)
    case None => None
    case Some(k) => Some(Normalize(CellAt(row, k), fmt))
  }

  /** The Store built from one row by visiting the mapped columns before `width`. */
  function StoreOf(row: Row, mapping: map<nat, string>, width: nat, fmt: Formats): Store
  {
    Store(
      ValueFor(row, mapping, "template", width, fmt),
      ValueFor(row, mapping, "address", width, fmt),
      ValueFor(row, mapping, "name", width, fmt),
      ValueFor(row, mapping, "logo", width, fmt),
      ValueFor(row, mapping, "email", width, fmt))
  }

  /** Visiting column `j` applies its setter if it is mapped, and nothing otherwise. */
  lemma StoreOfStep(row: Row, mapping: map<nat, string>, j: nat, fmt: Formats)
    ensures StoreOf(row, mapping, j + 1, fmt) ==
              if j in mapping then SetField(StoreOf(row, mapping, j, fmt), mapping[j], Normalize(CellAt(row, j), fmt))
              else StoreOf(row, mapping, j, fmt)
  {
    var before := StoreOf(row, mapping, j, fmt);
    var after := if j in mapping then SetField(before, mapping[j], Normalize(CellAt(row, j), fmt)) else before;
    forall f | f in FieldNames
      ensures Field(StoreOf(row, mapping, j + 1, fmt), f) == Field(after, f)
    {
    }
    StoreByFields(StoreOf(row, mapping, j + 1, fmt), after);
  }

  /**
   * Field `f` of the Store built from a row is null exactly when no column is mapped to `f`;
   * otherwise it is the normalized cell of the rightmost column mapped to `f`.
   */
  lemma StoreOfFields(row: Row, mapping: map<nat, string>, width: nat, fmt: Formats, f: string)
    requires f in FieldNames
    requires forall j :: j in mapping ==> j < width
    ensures Field(StoreOf(row, mapping, width, fmt), f).None? <==> f !in mapping.Values
    ensures Field(StoreOf(row, mapping, width, fmt), f).Some? ==>
              exists k :: k in mapping && mapping[k] == f
                && Field(StoreOf(row, mapping, width, fmt), f) == Some(Normalize(CellAt(row, k), fmt))
                && forall j :: j in mapping && k < j ==> mapping[j] != f
  {
    var k := LastColumnNamed(mapping, f, width);
    assert Field(StoreOf(row, mapping, width, fmt), f) == ValueFor(row, mapping, f, width, fmt);
    if k.Some? {
      assert f == mapping[k.value];
    }
  }

  /** The columns whose name selects a field. */
  function Recognised(mapping: map<nat, string>): map<nat, string>
  {
    map k | k in mapping && mapping[k] in FieldNames :: mapping[k]
  }

  lemma {:induction false} LastColumnNamedRecognised(mapping: map<nat, string>, f: string, n: nat)
    requires f in FieldNames
    ensures LastColumnNamed(mapping, f, n) == LastColumnNamed(Recognised(mapping), f, n)
    decreases n
  {
    if n > 0 {
      LastColumnNamedRecognised(mapping, f, n - 1);
    }
  }

  /** Columns whose name selects no field change nothing in the Store built from a row. */
  lemma UnrecognisedColumnsIgnored(row: Row, mapping: map<nat, string>, width: nat, fmt: Formats)
    ensures StoreOf(row, mapping, width, fmt) == StoreOf(row, Recognised(mapping), width, fmt)
  {
    LastColumnNamedRecognised(mapping, "template", width);
    LastColumnNamedRecognised(mapping, "address", width);
    LastColumnNamedRecognised(mapping, "name", width);
    LastColumnNamedRecognised(mapping, "logo", width);
    LastColumnNamedRecognised(mapping, "email", width);
  }

  /**
   * FileProcessingService.java, lines 77-102: a fresh Store, then for every mapped column the setter its name selects,
   * called with the normalized cell. The mapping is visited in ascending column order.
   */
  method BuildStore(row: Row, mapping: map<nat, string>, width: nat, fmt: Formats) returns (store: Store)
    ensures store == StoreOf(row, mapping, width, fmt)
  {
    store := NewStore;
    var j := 0;
    while j < width
      invariant j <= width
      invariant store == StoreOf(row, mapping, j, fmt)
    {
      StoreOfStep(row, mapping, j, fmt);
      if j in mapping {
        var value := Normalize(CellAt(row, j), fmt);
        store := SetField(store, mapping[j], value);
      }
      j := j + 1;
    }
  }

  /** The present data rows before `n`, in ascending order; row 0 is the header and is never one. */
  function DataRowIndices(sheet: Sheet, n: nat): seq<nat>
    decreases n
  {
    if n <= 1 then []
    else DataRowIndices(sheet, n - 1) + (if n - 1 < |sheet| && sheet[n - 1].Some? then [n - 1] else [])
  }

  /**
   * The data rows are listed in strictly ascending order, and a row is listed exactly when it
   * is a present row after the header.
   */
  lemma {:induction false} DataRowIndicesProperties(sheet: Sheet, n: nat)
    ensures forall k :: 0 <= k < |DataRowIndices(sheet, n)| ==>
              var i := DataRowIndices(sheet, n)[k]; 1 <= i < n && i < |sheet| && sheet[i].Some?
    ensures forall k, l :: 0 <= k < l < |DataRowIndices(sheet, n)| ==>
              DataRowIndices(sheet, n)[k] < DataRowIndices(sheet, n)[l]
    ensures forall i :: 1 <= i < n && i < |sheet| && sheet[i].Some? ==> i in DataRowIndices(sheet, n)
    decreases n
  {
    if n > 1 {
      DataRowIndicesProperties(sheet, n - 1);
    }
  }

  /** The Stores built from the present data rows before `n`, in row order. */
  function RecordsBelow(sheet: Sheet, mapping: map<nat, string>, width: nat, fmt: Formats, n: nat): seq<Store>
    decreases n
  {
    if n <= 1 then []
    else
      RecordsBelow(sheet, mapping, width, fmt, n - 1)
      + if n - 1 < |sheet| && sheet[n - 1].Some? then [StoreOf(sheet[n - 1].value, mapping, width, fmt)] else []
  }

  /** The Stores of a sheet: one per present data row, in row order. */
  function Records(sheet: Sheet, mapping: map<nat, string>, width: nat, fmt: Formats): seq<Store>
  {
    RecordsBelow(sheet, mapping, width, fmt, |sheet|)
  }

  /**
   * There is one Store per present data row, and the Store at position `k` is built from the
   * row listed at position `k` among the data rows.
   */
  lemma {:induction false} RecordsFollowDataRows(sheet: Sheet, mapping: map<nat, string>, width: nat, fmt: Formats, n: nat)
    ensures |RecordsBelow(sheet, mapping, width, fmt, n)| == |DataRowIndices(sheet, n)|
    ensures forall k :: 0 <= k < |DataRowIndices(sheet, n)| ==>
              DataRowIndices(sheet, n)[k] < |sheet| && sheet[DataRowIndices(sheet, n)[k]].Some?
              && RecordsBelow(sheet, mapping, width, fmt, n)[k]
                 == StoreOf(sheet[DataRowIndices(sheet, n)[k]].value, mapping, width, fmt)
    decreases n
  {
    DataRowIndicesProperties(sheet, n);
    if n > 1 {
      RecordsFollowDataRows(sheet, mapping, width, fmt, n - 1);
    }
  }

  /** A cell that makes a row look empty: absent, blank, an error, or empty text. */
  predicate LooksEmpty(c: Option<Cell>)
  {
    c.None? || c.value.BlankCell? || c.value.ErrorCell? || c.value == TextCell("")
  }

  /**
   * A present data row whose cells all look empty is not dropped: it has its place among the
   * data rows, and its Store has every field null or "".
   */
  lemma BlankRowKept(sheet: Sheet, i: nat, mapping: map<nat, string>, width: nat, fmt: Formats)
    requires 1 <= i < |sheet| && sheet[i].Some?
    requires forall j :: 0 <= j < |sheet[i].value| ==> LooksEmpty(sheet[i].value[j])
    ensures i in DataRowIndices(sheet, |sheet|)
    ensures forall f :: f in FieldNames ==>
              Field(StoreOf(sheet[i].value, mapping, width, fmt), f) in {None, Some("")}
  {
    DataRowIndicesProperties(sheet, |sheet|);
    forall f | f in FieldNames
      ensures Field(StoreOf(sheet[i].value, mapping, width, fmt), f) in {None, Some("")}
    {
      assert Field(StoreOf(sheet[i].value, mapping, width, fmt), f) == ValueFor(sheet[i].value, mapping, f, width, fmt);
    }
  }

  /**
   * FileProcessingService.java, lines 73-105: rows 1 to the last row number, absent rows skipped, one Store appended per
   * present row (a row whose cells are all empty included).
   */
  method BuildStores(sheet: Sheet, mapping: map<nat, string>, width: nat, fmt: Formats) returns (stores: seq<Store>)
    ensures stores == Records(sheet, mapping, width, fmt)
  {
    stores := [];
    var i := 1;
    while i < |sheet|
      invariant 1 <= i && (i <= |sheet| || i == 1)
      invariant stores == RecordsBelow(sheet, mapping, width, fmt, i)
    {
      var row := sheet[i];
      if row.Some? {
        var store := BuildStore(row.value, mapping, width, fmt);
        stores := stores + [store];
      }
      i := i + 1;
    }
  }
}
