/** Ingestion of the source spreadsheet (src/utils/excelProcessor.ts): the
    parsed rows are checked against the required headers, turned into
    records and filtered on the TouchPoint identifier. */
module ExcelProcessor {
  import opened JsValues
  import opened SheetRows
  import opened Subsequences

  const TouchPointKey := "Numéro TouchPoint"

  /** The headers a source sheet must have, in the order they are reported. */
  const RequiredColumns: seq<string> := [
    TouchPointKey,
    "Enseigne",
    "Adresse1",
    "Ville",
    "Code Postal",
    "Intitulé Département",
    "Latitude",
    "Longitude",
    "Téléphone"
  ]

  const EmptyError := "File appears to be empty or invalid"
  const NoRowsError := "No valid data rows found in the file"

  /** `columns.filter(col => !headers.includes(col))` */
  function MissingFrom(columns: seq<string>, headers: seq<Cell>): (r: seq<string>)
    ensures |r| <= |columns|
  {
    if columns == [] then []
    else
      var n := |columns| - 1;
      MissingFrom(columns[..n], headers) + (if Str(columns[n]) in headers then [] else [columns[n]])
  }

  function MissingColumns(headers: seq<Cell>): seq<string> {
    MissingFrom(RequiredColumns, headers)
  }

  /** A column is reported exactly when it is required and no header cell
      is that string, and the report keeps the required order. */
  lemma {:induction false} MissingFromMeaning(columns: seq<string>, headers: seq<Cell>)
    ensures forall c :: c in MissingFrom(columns, headers) <==> c in columns && Str(c) !in headers
    ensures IsSubsequence(MissingFrom(columns, headers), columns)
  {
    if columns != [] {
      var n := |columns| - 1;
      MissingFromMeaning(columns[..n], headers);
      assert columns == columns[..n] + [columns[n]];
      if Str(columns[n]) in headers {
        assert MissingFrom(columns, headers) == MissingFrom(columns[..n], headers);
        SubsequenceExtend(MissingFrom(columns[..n], headers), columns[..n], columns[n]);
      } else {
        SubsequenceAppendBoth(MissingFrom(columns[..n], headers), columns[..n], columns[n]);
      }
    }
  }

  /** `Missing required columns: ${missingColumns.join(', ')}` */
  const MissingPrefix := "Missing required columns: "

  function MissingMessage(missing: seq<string>): (r: string)
    ensures |MissingPrefix| <= |r| && r[..|MissingPrefix|] == MissingPrefix
  {
    MissingPrefix + Join(missing, ", ")
  }

  /** `row.every(cell => cell === undefined || cell === '')`; true of an empty row. */
  predicate IsBlankRow(row: seq<Cell>): (b: bool)
    ensures |row| == 0 ==> b
    ensures b && |row| > 0 ==> !Truthy(row[0])
  {
    forall i :: 0 <= i < |row| ==> row[i] == Undef || row[i] == Str("")
  }

  /** What one data row contributes: nothing when it is blank or its
      TouchPoint value is falsy, else its record. */
  function RowOutput(headers: seq<Cell>, row: seq<Cell>): (r: seq<Record>)
    ensures |r| <= 1
    ensures r != [] ==> !IsBlankRow(row) && Truthy(Get(r[0], TouchPointKey))
  {
    if IsBlankRow(row) then []
    else
      var rec := RowRecord(headers, row, Nullish);
      if Truthy(Get(rec, TouchPointKey)) then [rec] else []
  }

  /** The records the loop pushes, for the data rows `rows`. */
  function ProcessedData(headers: seq<Cell>, rows: seq<seq<Cell>>): (r: seq<Record>)
    ensures |r| <= |rows|
  {
    if rows == [] then []
    else ProcessedData(headers, rows[..|rows| - 1]) + RowOutput(headers, rows[|rows| - 1])
  }

  /** The outcome of `reader.onload` on a parsed sheet: the records, or the
      message of the error it throws. */
  function ProcessSheet(jsonData: seq<seq<Cell>>): (r: Result<seq<Record>>)
    ensures r.Success? ==> 1 <= |r.value| <= |jsonData| - 1
  {
    if |jsonData| < 2 then Failure(EmptyError)
    else
      var missing := MissingColumns(jsonData[0]);
      if |missing| > 0 then Failure(MissingMessage(missing))
      else
        var data := ProcessedData(jsonData[0], jsonData[1..]);
        if |data| == 0 then Failure(NoRowsError) else Success(data)
  }

  /** Processing works row by row: the records of two runs of rows are
      those of each run, in order. */
  lemma {:induction false} ProcessedDataConcat(headers: seq<Cell>, a: seq<seq<Cell>>, b: seq<seq<Cell>>)
    ensures ProcessedData(headers, a + b) == ProcessedData(headers, a) + ProcessedData(headers, b)
    decreases |b|
  {
    if b == [] {
      assert a + b == a;
    } else {
      var n := |b| - 1;
      assert (a + b)[..|a + b| - 1] == a + b[..n];
      assert (a + b)[|a + b| - 1] == b[n];
      ProcessedDataConcat(headers, a, b[..n]);
      assert ProcessedData(headers, a + b)
        == ProcessedData(headers, a + b[..n]) + RowOutput(headers, b[n]);
    }
  }

  /** One data row yields its record exactly when it is not blank and its
      TouchPoint value is truthy. */
  lemma OneRowMeaning(headers: seq<Cell>, row: seq<Cell>)
    ensures ProcessedData(headers, [row]) ==
      if !IsBlankRow(row) && Truthy(Get(RowRecord(headers, row, Nullish), TouchPointKey))
      then [RowRecord(headers, row, Nullish)] else []
  {
    assert [row][..0] == [];
  }

  /** Every kept record has a truthy TouchPoint value and every property
      filled. */
  lemma {:induction false} ProcessedDataKept(headers: seq<Cell>, rows: seq<seq<Cell>>, i: int)
    requires 0 <= i < |ProcessedData(headers, rows)|
    ensures var rec := ProcessedData(headers, rows)[i];
      && Truthy(Get(rec, TouchPointKey))
      && forall k :: k in rec ==> rec[k] != Undef
  {
    var n := |rows| - 1;
    var init := ProcessedData(headers, rows[..n]);
    if i < |init| {
      ProcessedDataKept(headers, rows[..n], i);
    } else {
      assert ProcessedData(headers, rows)[i] == RowRecord(headers, rows[n], Nullish);
      RowRecordAllFilled(headers, rows[n], Nullish);
    }
  }

  /** The record of every data row, kept or not. */
  function AllRecords(headers: seq<Cell>, rows: seq<seq<Cell>>): (r: seq<Record>)
    ensures |r| == |rows|
  {
    if rows == [] then []
    else AllRecords(headers, rows[..|rows| - 1]) + [RowRecord(headers, rows[|rows| - 1], Nullish)]
  }

  /** The records keep sheet order: they are a subsequence of the records
      of all data rows. */
  lemma {:induction false} ProcessedDataInOrder(headers: seq<Cell>, rows: seq<seq<Cell>>)
    ensures IsSubsequence(ProcessedData(headers, rows), AllRecords(headers, rows))
  {
    if rows != [] {
      var n := |rows| - 1;
      var init := AllRecords(headers, rows[..n]);
      var rec := RowRecord(headers, rows[n], Nullish);
      ProcessedDataInOrder(headers, rows[..n]);
      if RowOutput(headers, rows[n]) == [] {
        assert ProcessedData(headers, rows) == ProcessedData(headers, rows[..n]);
        SubsequenceExtend(ProcessedData(headers, rows[..n]), init, rec);
      } else {
        assert ProcessedData(headers, rows) == ProcessedData(headers, rows[..n]) + [rec];
        SubsequenceAppendBoth(ProcessedData(headers, rows[..n]), init, rec);
      }
    }
  }

  /** The blank-row test is never what drops a row: a blank row has a blank
      TouchPoint value, which the identifier filter drops anyway. */
  lemma BlankRowSkipIsRedundant(headers: seq<Cell>, row: seq<Cell>)
    requires IsBlankRow(row)
    ensures !Truthy(Get(RowRecord(headers, row, Nullish), TouchPointKey))
  {
    RowRecordGet(headers, row, Nullish, TouchPointKey);
  }

  /** A TouchPoint cell holding `0` is falsy, so the row is dropped even
      though `??` keeps the `0` in the record. */
  lemma ZeroTouchPointDropped(row: seq<Cell>)
    requires |row| == 1 && row[0] == Num(0)
    ensures RowRecord([Str(TouchPointKey)], row, Nullish) == map[TouchPointKey := Num(0)]
    ensures RowOutput([Str(TouchPointKey)], row) == []
  {
    assert [Str(TouchPointKey)][..0] == [];
    assert !IsBlankRow(row);
  }

  /** The three error messages are different strings. */
  lemma ErrorsDistinct(missing: seq<string>)
    ensures MissingMessage(missing) != EmptyError
    ensures NoRowsError != EmptyError
  {
    assert MissingMessage(missing)[..4] == "Miss";
    assert EmptyError[..4] == "File";
    assert NoRowsError[..4] == "No v";
  }

  /** The three errors: too few rows, missing headers (named in the message),
      or no kept record; on success the list is the records of the data rows
      under the first row's headers, and is not empty. */
  lemma ProcessSheetOutcome(jsonData: seq<seq<Cell>>)
    ensures ProcessSheet(jsonData) == Failure(EmptyError) <==> |jsonData| < 2
    ensures |jsonData| >= 2 && MissingColumns(jsonData[0]) != [] ==>
      ProcessSheet(jsonData) == Failure(MissingMessage(MissingColumns(jsonData[0])))
    ensures ProcessSheet(jsonData).Success? <==>
      |jsonData| >= 2 && MissingColumns(jsonData[0]) == [] && ProcessedData(jsonData[0], jsonData[1..]) != []
    ensures |jsonData| >= 2 && MissingColumns(jsonData[0]) == [] && ProcessedData(jsonData[0], jsonData[1..]) == [] ==>
      ProcessSheet(jsonData) == Failure(NoRowsError)
    ensures ProcessSheet(jsonData).Success? ==>
      |jsonData| >= 2 && ProcessSheet(jsonData).value == ProcessedData(jsonData[0], jsonData[1..])
    ensures ProcessSheet(jsonData).Success? ==> 1 <= |ProcessSheet(jsonData).value| <= |jsonData| - 1
  {
    if |jsonData| >= 2 {
      ErrorsDistinct(MissingColumns(jsonData[0]));
    }
  }

  /** One turn of the loop: skips a blank row, builds the record and keeps
      it when its TouchPoint value is truthy. */
  method ProcessRow(headers: seq<Cell>, row: seq<Cell>) returns (out: seq<Record>)
    ensures out == RowOutput(headers, row)
  {
    out := [];
    if !IsBlankRow(row) {
      var rowData := BuildRowData(headers, row, Nullish);
      if Truthy(Get(rowData, TouchPointKey)) {
        out := [rowData];
      }
    }
  }

  /** The `for` loop over the data rows (sheet rows 1 onwards). */
  method CollectRecords(headers: seq<Cell>, rows: seq<seq<Cell>>) returns (processedData: seq<Record>)
    ensures processedData == ProcessedData(headers, rows)
  {
    processedData := [];
    for i := 0 to |rows|
      invariant processedData == ProcessedData(headers, rows[..i])
    {
      var out := ProcessRow(headers, rows[i]);
      assert rows[..i + 1][..i] == rows[..i];
      processedData := processedData + out;
    }
    assert rows[..|rows|] == rows;
  }

  /** The body of `reader.onload` from the parsed sheet on, with its early
      `throw`s. */
  method ProcessRows(jsonData: seq<seq<Cell>>) returns (result: Result<seq<Record>>)
    ensures result == ProcessSheet(jsonData)
  {
    if |jsonData| < 2 {
      return Failure(EmptyError);
    }
    var headers := jsonData[0];
    var missingColumns := MissingColumns(headers);
    if |missingColumns| > 0 {
      return Failure(MissingMessage(missingColumns));
    }
    var processedData := CollectRecords(headers, jsonData[1..]);
    if |processedData| == 0 {
      return Failure(NoRowsError);
    }
    return Success(processedData);
  }
}
