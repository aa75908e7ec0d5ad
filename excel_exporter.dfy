/** Serialisation of listings into the import sheet (src/utils/excelExporter.ts):
    a header row in the fixed column order, one row per listing, a width per
    column, and a timestamped file name. */
module ExcelExporter {
  import opened JsValues

  /** The columns of the import template, in order. */
  const ColumnOrder: seq<string> := [
    "Code de magasin",
    "Nom de l'entreprise",
    "Ligne d'adresse\U{00A0}1",
    "Ligne d'adresse\U{00A0}2",
    "Ligne d'adresse\U{00A0}3",
    "Ligne d'adresse\U{00A0}4",
    "Ligne d'adresse\U{00A0}5",
    "Sous-localité",
    "Localité",
    "Région administrative",
    "Pays/Région",
    "Code postal",
    "Latitude",
    "Longitude",
    "Numéro principal",
    "Autres numéros de téléphone",
    "Site Web",
    "Catégorie principale",
    "Catégories supplémentaires",
    "Horaires le dimanche",
    "Horaires le lundi",
    "Horaires le mardi",
    "Horaires le mercredi",
    "Horaires le jeudi",
    "Horaires le vendredi",
    "Horaires le samedi",
    "Horaires d'ouverture exceptionnels",
    "Fournie par l'établissement",
    "Date de création",
    "Photo du logo",
    "Photo de couverture",
    "Autres photos",
    "Libellés",
    "Numéro de téléphone pour les extensions de lieu AdWords",
    "Fournis par l'établissement: S'identifie comme géré par une femme (is_owned_by_women)",
    "Paiements: Cartes de crédit (pay_credit_card_types_accepted): American Express (american_express)",
    "Paiements: Cartes de crédit (pay_credit_card_types_accepted): MasterCard (mastercard)",
    "Paiements: Cartes de crédit (pay_credit_card_types_accepted): VISA (visa)",
    "Services: Wi-Fi (wi_fi)",
    "URL des pages Google\U{00A0}Adresses: Lien du menu ou des services (url_menu)",
    "URL des pages Google\U{00A0}Adresses: Liens pour commander à l'avance (url_order_ahead)"
  ]

  const SheetName := "Import GMB"
  const ColumnWidth := 20

  /** `columnOrder.map(column => location[column] || '')` */
  function ExportRow(rec: Record): (row: seq<Cell>)
    ensures |row| == |ColumnOrder|
  {
    seq(|ColumnOrder|, j requires 0 <= j < |ColumnOrder| => OrBlank(Get(rec, ColumnOrder[j])))
  }

  /** The header row: the column names themselves. */
  function HeaderRow(): (row: seq<Cell>)
    ensures |row| == |ColumnOrder|
  {
    seq(|ColumnOrder|, j requires 0 <= j < |ColumnOrder| => Str(ColumnOrder[j]))
  }

  /** The data rows pushed for `data`, in order. */
  function DataRows(data: seq<Record>): (rows: seq<seq<Cell>>)
    ensures |rows| == |data|
  {
    if data == [] then []
    else DataRows(data[..|data| - 1]) + [ExportRow(data[|data| - 1])]
  }

  /** `wsData` once every listing has been pushed. */
  function SheetData(data: seq<Record>): (rows: seq<seq<Cell>>)
    ensures |rows| == |data| + 1 && rows[0] == HeaderRow()
  {
    [HeaderRow()] + DataRows(data)
  }

  /** Row `i` of the data rows is the export of listing `i`. */
  lemma {:induction false} DataRowsAt(data: seq<Record>, i: int)
    requires 0 <= i < |data|
    ensures DataRows(data)[i] == ExportRow(data[i])
  {
    var n := |data| - 1;
    if i < n {
      DataRowsAt(data[..n], i);
    }
  }

  /** The sheet is the header row followed by one row per listing, in
      input order; every row has one cell per column, and a data cell is the
      listing's value under that column, or `''` when it is missing or falsy. */
  lemma SheetDataShape(data: seq<Record>)
    ensures |SheetData(data)| == |data| + 1
    ensures SheetData(data)[0] == HeaderRow()
    ensures forall j :: 0 <= j < |ColumnOrder| ==> HeaderRow()[j] == Str(ColumnOrder[j])
    ensures forall i :: 0 <= i < |data| ==> SheetData(data)[i + 1] == ExportRow(data[i])
    ensures forall i :: 0 <= i < |SheetData(data)| ==> |SheetData(data)[i]| == |ColumnOrder|
  {
    forall i | 0 <= i < |data| ensures SheetData(data)[i + 1] == ExportRow(data[i]) {
      DataRowsAt(data, i);
    }
    forall i | 0 <= i < |SheetData(data)| ensures |SheetData(data)[i]| == |ColumnOrder| {
      if i > 0 {
        DataRowsAt(data, i - 1);
      }
    }
  }

  /** A cell is the listing's own value exactly when that value is truthy;
      a `0` latitude, like any falsy value, is written as `''`. */
  lemma ExportRowCell(rec: Record, j: int)
    requires 0 <= j < |ColumnOrder|
    ensures Truthy(Get(rec, ColumnOrder[j])) ==> ExportRow(rec)[j] == Get(rec, ColumnOrder[j])
    ensures !Truthy(Get(rec, ColumnOrder[j])) ==> ExportRow(rec)[j] == Str("")
  {
  }

  lemma ZeroLatitudeWrittenBlank(rec: Record)
    requires Get(rec, "Latitude") == Num(0)
    ensures ColumnOrder[12] == "Latitude"
    ensures ExportRow(rec)[12] == Str("")
  {
  }

  /** `.replace(/:/g, '-')` */
  function ReplaceColons(s: string): (r: string)
    ensures |r| == |s|
  {
    if s == [] then [] else [if s[0] == ':' then '-' else s[0]] + ReplaceColons(s[1..])
  }

  /** Every colon, and nothing else, is replaced by a hyphen. */
  lemma {:induction false} ReplaceColonsAt(s: string)
    ensures forall i :: 0 <= i < |s| ==> ReplaceColons(s)[i] == if s[i] == ':' then '-' else s[i]
    ensures ':' !in ReplaceColons(s)
  {
    if s != [] {
      ReplaceColonsAt(s[1..]);
    }
  }

  /** `Import_GMB_${timestamp}.xlsx`, the timestamp being the first 19
      characters of the ISO time with its colons replaced. */
  function Filename(isoTime: string): (f: string)
    ensures |f| == 16 + (if |isoTime| <= 19 then |isoTime| else 19)
    ensures f[..11] == "Import_GMB_" && f[|f| - 5..] == ".xlsx"
  {
    var stamp := if |isoTime| <= 19 then isoTime else isoTime[..19];
    "Import_GMB_" + ReplaceColons(stamp) + ".xlsx"
  }

  /** The file name has the fixed prefix and suffix and, in between, the
      first 19 characters of the time (all of it when shorter) with each
      colon turned into a hyphen; so it has no colon. */
  lemma FilenameShape(isoTime: string)
    ensures var f := Filename(isoTime);
      && f[..11] == "Import_GMB_"
      && f[|f| - 5..] == ".xlsx"
      && |f| == 16 + (if |isoTime| <= 19 then |isoTime| else 19)
      && (forall i :: 0 <= i < |f| - 16 ==> f[11 + i] == if isoTime[i] == ':' then '-' else isoTime[i])
      && ':' !in f
  {
    var stamp := if |isoTime| <= 19 then isoTime else isoTime[..19];
    ReplaceColonsAt(stamp);
    var f := Filename(isoTime);
    assert f == "Import_GMB_" + ReplaceColons(stamp) + ".xlsx";
    forall i | 0 <= i < |f| ensures f[i] != ':' {
      if 11 <= i < 11 + |stamp| {
        assert f[i] == ReplaceColons(stamp)[i - 11];
      }
    }
  }

  /** What `exportToGMBExcel` hands to `XLSX.writeFile`. */
  datatype Workbook = Workbook(sheetName: string, rows: seq<seq<Cell>>, colWidths: seq<nat>)

  /** `exportToGMBExcel`: `wsData` grows by one row per listing, every
      column gets width 20, and the file is named from the clock's ISO time,
      passed in here. */
  method ExportToGmbExcel(data: seq<Record>, isoTime: string) returns (wb: Workbook, filename: string)
    ensures wb.sheetName == SheetName
    ensures wb.rows == SheetData(data)
    ensures |wb.colWidths| == |ColumnOrder| && forall j :: 0 <= j < |wb.colWidths| ==> wb.colWidths[j] == ColumnWidth
    ensures filename == Filename(isoTime)
  {
    var wsData := [HeaderRow()];
    for i := 0 to |data|
      invariant wsData == [HeaderRow()] + DataRows(data[..i])
    {
      assert data[..i + 1][..i] == data[..i];
      wsData := wsData + [ExportRow(data[i])];
    }
    assert data[..|data|] == data;
    var colWidths := seq(|ColumnOrder|, _ => ColumnWidth);
    wb := Workbook(SheetName, wsData, colWidths);
    filename := Filename(isoTime);
  }
}
