/** Turning one row of a parsed sheet into a record keyed by the header row,
    as both readers do with `headers.forEach((header, index) => ...)`. */
module SheetRows {
  import opened JsValues

  /** The default a reader puts in place of a cell: `row[i] ?? ''` or `row[i] || ''`. */
  datatype Fill = Nullish | Falsy

  function FillCell(c: Cell, mode: Fill): (r: Cell)
    ensures mode == Nullish ==> r != Undef && (c != Undef ==> r == c)
    ensures mode == Falsy ==> r == Str("") || Truthy(r)
    ensures mode == Falsy && Truthy(c) ==> r == c
  {
    match mode
    case Nullish => NullishOrBlank(c)
    case Falsy => OrBlank(c)
  }

  /** `row[i]`: past the end of the row reads as `undefined`. */
  function CellAt(row: seq<Cell>, i: nat): Cell {
    if i < |row| then row[i] else Undef
  }

  /** The property name a header cell gives: `String(header)`. An empty header
      cell is a hole in the header array, which `forEach` skips. */
  function HeaderKey(h: Cell): Option<string> {
    match h
    case Str(s) => Some(s)
    case Num(n) => Some(IntToString(n))
    case Undef => None
  }

  /** The record after `forEach` has visited the first `|headers|` header
      cells: each visited header sets its property to its cell. */
  function RowRecord(headers: seq<Cell>, row: seq<Cell>, mode: Fill): (r: Record)
    ensures |r| <= |headers|
  {
    if headers == [] then map[]
    else
      var n := |headers| - 1;
      var rec := RowRecord(headers[..n], row, mode);
      match HeaderKey(headers[n])
      case None => rec
      case Some(k) => rec[k := FillCell(CellAt(row, n), mode)]
  }

  /** The index of the last header cell that names `key`, if any. */
  function LastHeader(headers: seq<Cell>, key: string): (r: Option<nat>)
    ensures r.Some? ==> r.value < |headers| && HeaderKey(headers[r.value]) == Some(key)
    ensures r.Some? ==> forall j :: r.value < j < |headers| ==> HeaderKey(headers[j]) != Some(key)
    ensures r.None? ==> forall j :: 0 <= j < |headers| ==> HeaderKey(headers[j]) != Some(key)
  {
    if headers == [] then None
    else if HeaderKey(headers[|headers| - 1]) == Some(key) then Some(|headers| - 1)
    else LastHeader(headers[..|headers| - 1], key)
  }

  /** A property is set exactly when some header names it, and its value is
      the filled cell under the LAST such header: a later duplicate header
      overwrites an earlier one. */
  lemma {:induction false} RowRecordGet(headers: seq<Cell>, row: seq<Cell>, mode: Fill, key: string)
    ensures key in RowRecord(headers, row, mode) <==> LastHeader(headers, key).Some?
    ensures Get(RowRecord(headers, row, mode), key) ==
      match LastHeader(headers, key)
      case None => Undef
      case Some(i) => FillCell(CellAt(row, i), mode)
  {
    if headers != [] {
      RowRecordGet(headers[..|headers| - 1], row, mode, key);
    }
  }

  /** Every property is filled: with `??` no value is `undefined`, with `||`
      every value is `''` or truthy. */
  lemma RowRecordValues(headers: seq<Cell>, row: seq<Cell>, mode: Fill, key: string)
    requires key in RowRecord(headers, row, mode)
    ensures mode == Nullish ==> RowRecord(headers, row, mode)[key] != Undef
    ensures mode == Falsy ==> RowRecord(headers, row, mode)[key] == Str("") || Truthy(RowRecord(headers, row, mode)[key])
  {
    RowRecordGet(headers, row, mode, key);
  }

  /** `RowRecordValues` for every property at once. */
  lemma RowRecordAllFilled(headers: seq<Cell>, row: seq<Cell>, mode: Fill)
    ensures mode == Nullish ==> forall k :: k in RowRecord(headers, row, mode) ==> RowRecord(headers, row, mode)[k] != Undef
    ensures mode == Falsy ==> forall k :: k in RowRecord(headers, row, mode) ==>
      RowRecord(headers, row, mode)[k] == Str("") || Truthy(RowRecord(headers, row, mode)[k])
  {
    forall k | k in RowRecord(headers, row, mode)
      ensures mode == Nullish ==> RowRecord(headers, row, mode)[k] != Undef
      ensures mode == Falsy ==> RowRecord(headers, row, mode)[k] == Str("") || Truthy(RowRecord(headers, row, mode)[k])
    {
      RowRecordValues(headers, row, mode, k);
    }
  }

  /** The `forEach` that fills `rowData` one header at a time. */
  method BuildRowData(headers: seq<Cell>, row: seq<Cell>, mode: Fill) returns (rowData: Record)
    ensures rowData == RowRecord(headers, row, mode)
  {
    rowData := map[];
    var index := 0;
    while index < |headers|
      invariant 0 <= index <= |headers|
      invariant rowData == RowRecord(headers[..index], row, mode)
    {
      assert headers[..index + 1][..index] == headers[..index];
      match HeaderKey(headers[index]) {
        case None =>
        case Some(header) =>
          rowData := rowData[header := FillCell(CellAt(row, index), mode)];
      }
      index := index + 1;
    }
    assert headers[..index] == headers;
  }
}
