/** The CSV export of the finance reports and the UPI/Online figure of the
    daily collection report. A report row is a JavaScript object: its keys
    in insertion order with their values. */
module Reports {
  import opened Seqs
  import opened Text

  /** The values a report cell can hold. */
  datatype Value = Str(s: string) | Num(n: int) | Bool(b: bool) | Null

  /** A row: its own keys, in order, each with its value. */
  datatype Row = Row(fields: seq<(string, Value)>)

  /** `Object.keys(row)`. */
  function Keys(row: Row): (r: seq<string>)
    ensures |r| == |row.fields|
    ensures forall k :: 0 <= k < |r| ==> r[k] == row.fields[k].0
    decreases |row.fields|
  {
    if row.fields == [] then [] else [row.fields[0].0] + Keys(Row(row.fields[1..]))
  }

  function HasKey(h: string): ((string, Value)) -> bool {
    (f: (string, Value)) => f.0 == h
  }

  /** `row[h]`: the value of the key, nothing when the row lacks it. */
  function Lookup(row: Row, h: string): (r: Option<Value>)
    ensures r.None? <==> forall k :: 0 <= k < |row.fields| ==> row.fields[k].0 != h
  {
    match Find(row.fields, HasKey(h))
    case None => None
    case Some(f) => Some(f.1)
  }

  /** JavaScript falsiness of a value. */
  predicate Falsy(v: Value) {
    v == Str("") || v == Num(0) || v == Bool(false) || v == Null
  }

  /** `${row[h] || ''}`: the text of a cell, '' for a missing or falsy value,
      copied verbatim otherwise. */
  function CellText(v: Option<Value>): (r: string)
    ensures v.None? || Falsy(v.value) ==> r == ""
    ensures v.Some? && v.value.Str? ==> r == v.value.s
    ensures v.Some? && v.value.Num? && v.value.n != 0 ==> r == IntToString(v.value.n)
    ensures v == Some(Bool(true)) ==> r == "true"
  {
    match v
    case None => ""
    case Some(x) =>
      if Falsy(x) then ""
      else match x
        case Str(s) => s
        case Num(n) => IntToString(n)
        case Bool(_) => "true"
        case Null => ""
  }

  /** One double-quoted cell. Quotes and commas inside are not escaped. */
  function Cell(row: Row, h: string): string {
    "\"" + CellText(Lookup(row, h)) + "\""
  }

  /** The cells of a row, one per header, in header order. */
  function Cells(row: Row, headers: seq<string>): (r: seq<string>)
    ensures |r| == |headers|
    ensures forall k :: 0 <= k < |r| ==> r[k] == "\"" + CellText(Lookup(row, headers[k])) + "\""
  {
    if headers == [] then [] else [Cell(row, headers[0])] + Cells(row, headers[1..])
  }

  function DataLine(row: Row, headers: seq<string>): string {
    Join(Cells(row, headers), ",")
  }

  /** The data lines, one per row, in row order. */
  function DataLines(data: seq<Row>, headers: seq<string>): (r: seq<string>)
    ensures |r| == |data|
    ensures forall k :: 0 <= k < |r| ==> r[k] == DataLine(data[k], headers)
  {
    if data == [] then [] else [DataLine(data[0], headers)] + DataLines(data[1..], headers)
  }

  datatype Export = NoData | Csv(text: string)

  /** `exportToCSV`: no data (missing or empty) is refused; otherwise the
      keys of the first row joined by ',' and then one line per row, joined by
      '\n'. */
  function ExportCsv(data: Option<seq<Row>>): (r: Export)
    ensures r.NoData? <==> data.None? || data.value == []
    ensures r.Csv? ==>
              var headers := Keys(data.value[0]);
              r.text == Join([Join(headers, ",")] + DataLines(data.value, headers), "\n")
  {
    match data
    case None => NoData
    case Some(rows) =>
      if rows == [] then NoData
      else
        var headers := Keys(rows[0]);
        Csv(Join([Join(headers, ",")] + DataLines(rows, headers), "\n"))
  }

  /** No header and no cell text holds a line break. */
  predicate SingleLineText(data: seq<Row>, headers: seq<string>) {
    (forall k :: 0 <= k < |headers| ==> '\n' !in headers[k]) &&
    forall i, k :: 0 <= i < |data| && 0 <= k < |headers| ==> '\n' !in CellText(Lookup(data[i], headers[k]))
  }

  /** A data line holds no line break when its texts hold none. */
  lemma DataLineSingle(data: seq<Row>, headers: seq<string>, i: nat)
    requires i < |data| && SingleLineText(data, headers)
    ensures '\n' !in DataLine(data[i], headers)
  {
    var cells := Cells(data[i], headers);
    forall k | 0 <= k < |cells|
      ensures '\n' !in cells[k]
    {
      assert cells[k][1..|cells[k]| - 1] == CellText(Lookup(data[i], headers[k]));
    }
    JoinAvoids(cells, ",", '\n');
  }

  /** When no text holds a line break the file reads back as exactly one
      header line and one line per row. */
  lemma ExportLines(rows: seq<Row>)
    requires rows != [] && SingleLineText(rows, Keys(rows[0]))
    ensures var headers := Keys(rows[0]);
            Split(ExportCsv(Some(rows)).text, '\n') == [Join(headers, ",")] + DataLines(rows, headers) &&
            |Split(ExportCsv(Some(rows)).text, '\n')| == |rows| + 1
  {
    var headers := Keys(rows[0]);
    var lines := [Join(headers, ",")] + DataLines(rows, headers);
    JoinAvoids(headers, ",", '\n');
    forall k | 0 <= k < |lines|
      ensures '\n' !in lines[k]
    {
      if k > 0 {
        DataLineSingle(rows, headers, k - 1);
      }
    }
    SplitJoin(lines, '\n');
  }

  /** When no cell text holds a comma, a data line reads back as exactly one
      quoted cell per header. */
  lemma DataLineCells(row: Row, headers: seq<string>)
    requires headers != []
    requires forall k :: 0 <= k < |headers| ==> ',' !in CellText(Lookup(row, headers[k]))
    ensures Split(DataLine(row, headers), ',') == Cells(row, headers)
    ensures |Split(DataLine(row, headers), ',')| == |headers|
  {
    var cells := Cells(row, headers);
    forall k | 0 <= k < |cells|
      ensures ',' !in cells[k]
    {
      assert cells[k][1..|cells[k]| - 1] == CellText(Lookup(row, headers[k]));
    }
    SplitJoin(cells, ',');
  }

  /** The amount of a payment mode in the daily report, 0 when missing. */
  function ModeAmount(byMode: map<string, int>, mode: string): int {
    if mode in byMode then byMode[mode] else 0
  }

  /** The UPI/Online card: the UPI and online amounts added, a missing mode
      counted as 0. */
  function UpiOnline(byMode: map<string, int>): (r: int)
    ensures "upi" !in byMode && "online" !in byMode ==> r == 0
    ensures "upi" in byMode && "online" !in byMode ==> r == byMode["upi"]
    ensures "upi" !in byMode && "online" in byMode ==> r == byMode["online"]
    ensures "upi" in byMode && "online" in byMode ==> r == byMode["upi"] + byMode["online"]
  {
    ModeAmount(byMode, "upi") + ModeAmount(byMode, "online")
  }
}
