/** How the pieces fit together: the converter's listings are written by the
    exporter, and the exported sheet is read back by the listing reader that
    feeds the update comparison. */
module Pipeline {
  import opened JsValues
  import opened SheetRows
  import GmbConverter
  import ExcelExporter
  import GmbExcelReader
  import UpdateTab

  /** The converter's 41 keys are exactly the exporter's 41 columns. */
  lemma ListingKeysAreColumns()
    ensures forall k :: k in GmbConverter.ListingKeys <==> k in ExcelExporter.ColumnOrder
  {
    forall k | k in GmbConverter.ListingKeys ensures k in ExcelExporter.ColumnOrder {
      ListingKeyIsColumn(k);
    }
    forall j | 0 <= j < |ExcelExporter.ColumnOrder|
      ensures ExcelExporter.ColumnOrder[j] in GmbConverter.ListingKeys
    {
      ColumnIsListingKey(j);
    }
  }

  lemma ListingKeyIsColumn(k: string)
    requires k in GmbConverter.ListingKeys
    ensures k in ExcelExporter.ColumnOrder
  {
  }

  lemma ColumnIsListingKey(j: int)
    requires 0 <= j < |ExcelExporter.ColumnOrder|
    ensures ExcelExporter.ColumnOrder[j] in GmbConverter.ListingKeys
  {
  }

  /** What reading an exported listing back gives: every column, with a
      falsy value written as `''`. */
  function Project(rec: Record): Record {
    map k | k in ExcelExporter.ColumnOrder :: OrBlank(Get(rec, k))
  }

  /** The listings the reader gets back from an export of `data`: those with
      a truthy store code, projected on the columns. */
  function Reimported(data: seq<Record>): (r: seq<Record>)
    ensures |r| <= |data|
  {
    if data == [] then []
    else
      var last := data[|data| - 1];
      Reimported(data[..|data| - 1])
      + (if Truthy(Get(last, GmbConverter.CodeKey)) then [Project(last)] else [])
  }

  /** Under the exported header row, a name has a column exactly when it is
      one of the exporter's columns, and its last column carries that name. */
  lemma HeaderRowLookup(k: string)
    ensures LastHeader(ExcelExporter.HeaderRow(), k).Some? <==> k in ExcelExporter.ColumnOrder
    ensures LastHeader(ExcelExporter.HeaderRow(), k).Some? ==>
      ExcelExporter.ColumnOrder[LastHeader(ExcelExporter.HeaderRow(), k).value] == k
  {
    var header := ExcelExporter.HeaderRow();
    if k in ExcelExporter.ColumnOrder {
      var j :| 0 <= j < |ExcelExporter.ColumnOrder| && ExcelExporter.ColumnOrder[j] == k;
      assert HeaderKey(header[j]) == Some(k);
    }
  }

  /** Reading one exported row under the exported header row gives the
      projection of the listing. Column names may repeat without harm: every
      cell under a name holds the listing's value for that name. */
  lemma ReadBackRow(rec: Record)
    ensures RowRecord(ExcelExporter.HeaderRow(), ExcelExporter.ExportRow(rec), Falsy) == Project(rec)
  {
    var header := ExcelExporter.HeaderRow();
    var row := ExcelExporter.ExportRow(rec);
    var back := RowRecord(header, row, Falsy);
    var proj := Project(rec);
    forall k ensures (k in back <==> k in proj) && (k in back ==> back[k] == proj[k]) {
      RowRecordGet(header, row, Falsy, k);
      HeaderRowLookup(k);
    }
  }

  /** The reader keeps exactly the listings with a truthy store code, in order. */
  lemma {:induction false} ReadBackRows(data: seq<Record>)
    ensures GmbExcelReader.Processed(ExcelExporter.HeaderRow(), ExcelExporter.DataRows(data)) == Reimported(data)
  {
    if data != [] {
      var n := |data| - 1;
      var header := ExcelExporter.HeaderRow();
      var rows := ExcelExporter.DataRows(data);
      ReadBackRows(data[..n]);
      ReadBackRow(data[n]);
      assert rows[..n] == ExcelExporter.DataRows(data[..n]);
      assert ExcelExporter.ColumnOrder[0] == GmbConverter.CodeKey;
      assert Get(Project(data[n]), GmbConverter.CodeKey) == OrBlank(Get(data[n], GmbConverter.CodeKey));
    }
  }

  /** Exporting listings and reading the file back gives the listings that
      have a store code, each projected on the columns with falsy values
      blanked; an export of no listings has only its header row, which the
      reader rejects. */
  lemma ExportThenRead(data: seq<Record>)
    ensures data == [] ==> GmbExcelReader.ReadSheet(ExcelExporter.SheetData(data)) == Failure(GmbExcelReader.EmptyError)
    ensures data != [] ==> GmbExcelReader.ReadSheet(ExcelExporter.SheetData(data)) == Success(Reimported(data))
  {
    var sheet := ExcelExporter.SheetData(data);
    assert sheet[0] == ExcelExporter.HeaderRow() && sheet[1..] == ExcelExporter.DataRows(data);
    ReadBackRows(data);
  }

  /** A courier row with no truthy 'Numéro Relais' (the source sheet only
      has to provide 'Numéro TouchPoint') becomes a listing with a blank
      store code, which the listing reader drops after an export and whose
      canonical code is empty. */
  lemma BlankStoreCode(loc: Record, g: GmbConverter.GlobalInputs, parse: Cell -> Option<int>)
    requires !Truthy(Get(loc, "Numéro Relais"))
    requires GmbConverter.ConvertLocation(loc, g, parse).Some?
    ensures var listing := GmbConverter.ConvertLocation(loc, g, parse).value;
      && Get(listing, GmbConverter.CodeKey) == Str("")
      && Reimported([listing]) == []
      && UpdateTab.CodeOf(listing) == ""
  {
    var hours := GmbConverter.WeekHours(loc, GmbConverter.WeekOrder).value;
    GmbConverter.ListingRowCopied(loc, hours, g, parse);
    GmbConverter.ListingRowKeys(loc, hours, g, parse);
    var listing := GmbConverter.ConvertLocation(loc, g, parse).value;
    assert GmbConverter.CodeKey in GmbConverter.ListingKeys;
    assert [listing][..0] == [];
  }

  /** A number used as a header names a string of digits, possibly signed. */
  lemma NumberHeaderIsNumeric(n: int)
    ensures HeaderKey(Num(n)) != Some("Numéro Relais")
  {
    var t := IntToString(n);
    assert t[0] == '-' || IsDigit(t[0]);
  }

  /** A header row without 'Numéro Relais' gives records without it. */
  lemma NoRelayHeader(headers: seq<Cell>, row: seq<Cell>)
    requires Str("Numéro Relais") !in headers
    ensures Get(RowRecord(headers, row, Nullish), "Numéro Relais") == Undef
  {
    forall j | 0 <= j < |headers| ensures HeaderKey(headers[j]) != Some("Numéro Relais") {
      if headers[j].Num? {
        NumberHeaderIsNumeric(headers[j].n);
      }
    }
    RowRecordGet(headers, row, Nullish, "Numéro Relais");
  }

  /** A coordinate that does not parse (or parses to 0) is stored as the
      number 0, which the exporter writes as `''`. */
  lemma UnparsedLatitudeExportedBlank(loc: Record, g: GmbConverter.GlobalInputs, parse: Cell -> Option<int>)
    requires GmbConverter.ConvertLocation(loc, g, parse).Some?
    requires parse(Get(loc, "Latitude")) == None || parse(Get(loc, "Latitude")) == Some(0)
    ensures Get(GmbConverter.ConvertLocation(loc, g, parse).value, GmbConverter.LatitudeKey) == Num(0)
    ensures ExcelExporter.ExportRow(GmbConverter.ConvertLocation(loc, g, parse).value)[12] == Str("")
  {
    var hours := GmbConverter.WeekHours(loc, GmbConverter.WeekOrder).value;
    GmbConverter.ListingRowCoordinates(loc, hours, g, parse);
    GmbConverter.ListingRowKeys(loc, hours, g, parse);
    assert GmbConverter.LatitudeKey in GmbConverter.ListingKeys;
    ExcelExporter.ZeroLatitudeWrittenBlank(GmbConverter.ConvertLocation(loc, g, parse).value);
  }
}
