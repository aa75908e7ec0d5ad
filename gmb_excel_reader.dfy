/** Reading back an exported listing sheet (src/utils/gmbExcelReader.ts):
    like the source-sheet ingestion, but with `||` defaults, only empty rows
    skipped up front, the store code as the identifier, and no error when
    nothing is kept. */
module GmbExcelReader {
  import opened JsValues
  import opened SheetRows
  import opened Subsequences
  import GmbConverter

  const EmptyError := "File appears to be empty or invalid"

  /** What one data row contributes: nothing when it has no cells or its
      store code is falsy, else its record. */
  function RowOutput(headers: seq<Cell>, row: seq<Cell>): (r: seq<Record>)
    ensures |r| <= 1
    ensures r != [] ==> |row| > 0 && Truthy(Get(r[0], GmbConverter.CodeKey))
  {
    if |row| == 0 then []
    else
      var rec := RowRecord(headers, row, Falsy);
      if Truthy(Get(rec, GmbConverter.CodeKey)) then [rec] else []
  }

  /** The records the loop pushes, for the data rows `rows`. */
  function Processed(headers: seq<Cell>, rows: seq<seq<Cell>>): (r: seq<Record>)
    ensures |r| <= |rows|
  {
    if rows == [] then []
    else Processed(headers, rows[..|rows| - 1]) + RowOutput(headers, rows[|rows| - 1])
  }

  /** The outcome of `reader.onload` on a parsed sheet. */
  function ReadSheet(jsonData: seq<seq<Cell>>): (r: Result<seq<Record>>)
    ensures r.Success? ==> |r.value| <= |jsonData| - 1
  {
    if |jsonData| < 2 then Failure(EmptyError)
    else Success(Processed(jsonData[0], jsonData[1..]))
  }

  /** The record of every data row, kept or not. */
  function AllRecords(headers: seq<Cell>, rows: seq<seq<Cell>>): (r: seq<Record>)
    ensures |r| == |rows|
  {
    if rows == [] then []
    else AllRecords(headers, rows[..|rows| - 1]) + [RowRecord(headers, rows[|rows| - 1], Falsy)]
  }

  /** The only error is a sheet with fewer than two rows; otherwise the
      result is the records of the data rows under the first row's headers,
      may be empty, and has at most one record per data row. */
  lemma ReadSheetOutcome(jsonData: seq<seq<Cell>>)
    ensures ReadSheet(jsonData).Failure? <==> |jsonData| < 2
    ensures |jsonData| >= 2 ==> ReadSheet(jsonData) == Success(Processed(jsonData[0], jsonData[1..]))
    ensures ReadSheet(jsonData).Success? ==> |ReadSheet(jsonData).value| <= |jsonData| - 1
    ensures |jsonData| == 2 && jsonData[1] == [] ==> ReadSheet(jsonData) == Success([])
  {
    if |jsonData| == 2 && jsonData[1] == [] {
      assert jsonData[1..] == [[]];
      assert jsonData[1..][..0] == [];
    }
  }

  /** Reading works row by row: the records of two runs of rows are those
      of each run, in order. */
  lemma {:induction false} ProcessedConcat(headers: seq<Cell>, a: seq<seq<Cell>>, b: seq<seq<Cell>>)
    ensures Processed(headers, a + b) == Processed(headers, a) + Processed(headers, b)
    decreases |b|
  {
    if b == [] {
      assert a + b == a;
    } else {
      var n := |b| - 1;
      assert (a + b)[..|a + b| - 1] == a + b[..n];
      assert (a + b)[|a + b| - 1] == b[n];
      ProcessedConcat(headers, a, b[..n]);
      assert Processed(headers, a + b)
        == Processed(headers, a + b[..n]) + RowOutput(headers, b[n]);
    }
  }

  /** Every kept record has a truthy store code, and every value is `''`
      or truthy. */
  lemma {:induction false} ProcessedKept(headers: seq<Cell>, rows: seq<seq<Cell>>, i: int)
    requires 0 <= i < |Processed(headers, rows)|
    ensures var rec := Processed(headers, rows)[i];
      && Truthy(Get(rec, GmbConverter.CodeKey))
      && forall k :: k in rec ==> rec[k] == Str("") || Truthy(rec[k])
  {
    var n := |rows| - 1;
    var init := Processed(headers, rows[..n]);
    if i < |init| {
      ProcessedKept(headers, rows[..n], i);
    } else {
      assert Processed(headers, rows)[i] == RowRecord(headers, rows[n], Falsy);
      RowRecordAllFilled(headers, rows[n], Falsy);
    }
  }

  /** The records keep sheet order. */
  lemma {:induction false} ProcessedInOrder(headers: seq<Cell>, rows: seq<seq<Cell>>)
    ensures IsSubsequence(Processed(headers, rows), AllRecords(headers, rows))
  {
    if rows != [] {
      var n := |rows| - 1;
      var init := AllRecords(headers, rows[..n]);
      var rec := RowRecord(headers, rows[n], Falsy);
      ProcessedInOrder(headers, rows[..n]);
      if RowOutput(headers, rows[n]) == [] {
        assert Processed(headers, rows) == Processed(headers, rows[..n]);
        SubsequenceExtend(Processed(headers, rows[..n]), init, rec);
      } else {
        assert Processed(headers, rows) == Processed(headers, rows[..n]) + [rec];
        SubsequenceAppendBoth(Processed(headers, rows[..n]), init, rec);
      }
    }
  }

  /** One data row yields its record exactly when it has cells and its
      store code is truthy. */
  lemma OneRowMeaning(headers: seq<Cell>, row: seq<Cell>)
    ensures Processed(headers, [row]) ==
      if |row| > 0 && Truthy(Get(RowRecord(headers, row, Falsy), GmbConverter.CodeKey))
      then [RowRecord(headers, row, Falsy)] else []
  {
    assert [row][..0] == [];
  }

  /** `|| ''` turns every falsy cell into `''`: a `0` is not kept. */
  lemma ZeroCellBecomesBlank(row: seq<Cell>)
    requires |row| == 1 && row[0] == Num(0)
    ensures RowRecord([Str("Latitude")], row, Falsy) == map["Latitude" := Str("")]
    ensures RowRecord([Str("Latitude")], row, Nullish) == map["Latitude" := Num(0)]
  {
    assert [Str("Latitude")][..0] == [];
  }

  /** A row of blank cells is not skipped up front, but its store code is
      blank, so the identifier filter drops it. */
  lemma BlankCellsDropped(headers: seq<Cell>, row: seq<Cell>)
    requires forall i :: 0 <= i < |row| ==> row[i] == Undef || row[i] == Str("")
    ensures RowOutput(headers, row) == []
  {
    RowRecordGet(headers, row, Falsy, GmbConverter.CodeKey);
  }

  /** The body of `reader.onload` from the parsed sheet on. */
  method ReadRows(jsonData: seq<seq<Cell>>) returns (result: Result<seq<Record>>)
    ensures result == ReadSheet(jsonData)
  {
    if |jsonData| < 2 {
      return Failure(EmptyError);
    }
    var headers := jsonData[0];
    var processed: seq<Record> := [];
    for i := 1 to |jsonData|
      invariant processed == Processed(headers, jsonData[1..i])
    {
      var row := jsonData[i];
      assert jsonData[1..i + 1][..i - 1] == jsonData[1..i];
      assert Processed(headers, jsonData[1..i + 1]) == Processed(headers, jsonData[1..i]) + RowOutput(headers, row);
      if |row| != 0 {
        var rowData := BuildRowData(headers, row, Falsy);
        if Truthy(Get(rowData, GmbConverter.CodeKey)) {
          processed := processed + [rowData];
        }
      }
    }
    assert jsonData[1..|jsonData|] == jsonData[1..];
    return Success(processed);
  }
}
