/**
 * CSV export and import (services/api/src/modules/import-export.routes.ts).
 *
 * The parser is a character machine; the exporter quotes field by field. The
 * reference between them is RFC 4180: what a file is allowed to look like.
 */
module Csv {
  import opened Common
  import opened Text

  // ------------------------------------------------------------ the parser

  /** The rows the machine still emits from this configuration. */
  function Scan(input: string, row: seq<string>, field: string, inQuotes: bool): seq<seq<string>>
    decreases |input|
  {
    if input == "" then
      if field != "" || row != [] then [row + [field]] else []
    else
      var c, rest := input[0], input[1..];
      if inQuotes then
        if c != '"' then Scan(rest, row, field + [c], true)
        else if rest != "" && rest[0] == '"' then Scan(rest[1..], row, field + [c], true)
        else Scan(rest, row, field, false)
      else if c == '"' then Scan(rest, row, field, true)
      else if c == ',' then Scan(rest, row + [field], "", false)
      else if c == '\r' then Scan(rest, row, field, false)
      else if c == '\n' then [row + [field]] + Scan(rest, [], "", false)
      else Scan(rest, row, field + [c], false)
  }

  /** A row survives the final filter unless it is a single empty field (or no field at all). */
  predicate Survives(row: seq<string>) {
    |row| > 1 || (|row| == 1 && row[0] != "")
  }

  function Survivors(rows: seq<seq<string>>): seq<seq<string>> {
    if rows == [] then []
    else (if Survives(rows[0]) then [rows[0]] else []) + Survivors(rows[1..])
  }

  function Parsed(input: string): seq<seq<string>> {
    Survivors(Scan(input, [], "", false))
  }

  lemma {:induction false} SurvivorsConcat(a: seq<seq<string>>, b: seq<seq<string>>)
    ensures Survivors(a + b) == Survivors(a) + Survivors(b)
  {
    if a == [] {
      assert a + b == b;
    } else {
      assert (a + b)[1..] == a[1..] + b;
      SurvivorsConcat(a[1..], b);
    }
  }

  method ParseCsv(input: string) returns (kept: seq<seq<string>>)
    ensures kept == Parsed(input)
  {
    var rows: seq<seq<string>> := [];
    var row: seq<string> := [];
    var field, inQuotes, i := "", false, 0;
    while i < |input|
      invariant 0 <= i <= |input|
      invariant rows + Scan(input[i..], row, field, inQuotes) == Scan(input, [], "", false)
    {
      var c := input[i];
      assert input[i..][0] == c && input[i..][1..] == input[i + 1..];
      if inQuotes {
        if c == '"' {
          if i + 1 < |input| && input[i + 1] == '"' {
            assert input[i..][1..][1..] == input[i + 2..];
            field := field + [c];
            i := i + 1;
          } else {
            inQuotes := false;
          }
        } else {
          field := field + [c];
        }
      } else if c == '"' {
        inQuotes := true;
      } else if c == ',' {
        row, field := row + [field], "";
      } else if c == '\r' {
      } else if c == '\n' {
        rows := rows + [row + [field]];
        row, field := [], "";
      } else {
        field := field + [c];
      }
      i := i + 1;
    }
    if |field| > 0 || |row| > 0 {
      rows := rows + [row + [field]];
    }
    assert input[i..] == "" && rows == Scan(input, [], "", false);
    kept := Survivors(rows);
  }

  // ------------------------------------------- RFC 4180, section 2, as a relation

  predicate Special(c: char) {
    c == '"' || c == ',' || c == '\r' || c == '\n'
  }

  predicate Plain(text: string) {
    forall c <- text :: !Special(c)
  }

  function Doubled(text: string): string {
    if text == "" then ""
    else (if text[0] == '"' then "\"\"" else [text[0]]) + Doubled(text[1..])
  }

  function Quoted(text: string): string {
    "\"" + Doubled(text) + "\""
  }

  /** Any field may be quoted; one with no special character may also stand bare. */
  predicate Renders(shown: string, text: string) {
    shown == Quoted(text) || (shown == text && Plain(text))
  }

  /** A record line: its shown fields, and the line break that ends it. */
  datatype Line = Line(fields: seq<string>, eol: string)

  ghost predicate RendersRow(line: Line, row: seq<string>) {
    && |line.fields| == |row|
    && (forall i :: 0 <= i < |row| ==> Renders(line.fields[i], row[i]))
    && line.eol in {"", "\n", "\r\n"}
  }

  /** Every record ends in a line break, except that the last one need not. */
  ghost predicate RendersFile(lines: seq<Line>, rows: seq<seq<string>>) {
    && |lines| == |rows|
    && (forall i :: 0 <= i < |rows| ==> RendersRow(lines[i], rows[i]))
    && (forall i :: 0 <= i < |rows| - 1 ==> lines[i].eol != "")
  }

  function FileText(lines: seq<Line>): string {
    if lines == [] then "" else Join(lines[0].fields, ',') + lines[0].eol + FileText(lines[1..])
  }

  lemma {:induction false} ScanPlain(text: string, rest: string, row: seq<string>, field: string)
    requires Plain(text)
    ensures Scan(text + rest, row, field, false) == Scan(rest, row, field + text, false)
    decreases |text|
  {
    if text == "" {
      assert text + rest == rest && field + text == field;
    } else {
      assert (text + rest)[1..] == text[1..] + rest;
      assert text[0] in text;
      ScanPlain(text[1..], rest, row, field + [text[0]]);
      assert field + [text[0]] + text[1..] == field + text;
    }
  }

  lemma {:induction false} ScanDoubled(text: string, rest: string, row: seq<string>, field: string)
    requires rest != "" ==> rest[0] != '"'
    ensures Scan(Doubled(text) + "\"" + rest, row, field, true) == Scan(rest, row, field + text, false)
    decreases |text|
  {
    var s := Doubled(text) + "\"" + rest;
    if text == "" {
      assert s[1..] == rest && field + text == field;
    } else {
      var tail := Doubled(text[1..]) + "\"" + rest;
      if text[0] == '"' {
        assert s[1..][1..] == tail;
      } else {
        assert s[1..] == tail;
      }
      ScanDoubled(text[1..], rest, row, field + [text[0]]);
      assert field + [text[0]] + text[1..] == field + text;
    }
  }

  lemma {:induction false} ScanField(shown: string, text: string, rest: string, row: seq<string>)
    requires Renders(shown, text)
    requires rest != "" ==> rest[0] != '"'
    ensures Scan(shown + rest, row, "", false) == Scan(rest, row, text, false)
  {
    assert "" + text == text;
    if shown == Quoted(text) {
      assert (shown + rest)[1..] == Doubled(text) + "\"" + rest;
      ScanDoubled(text, rest, row, "");
    } else {
      ScanPlain(text, rest, row, "");
    }
  }

  lemma ScanComma(tail: string, row: seq<string>, field: string)
    requires tail != "" && tail[0] == ','
    ensures Scan(tail, row, field, false) == Scan(tail[1..], row + [field], "", false)
  {
  }

  lemma {:induction false} ScanFields(shown: seq<string>, row: seq<string>, rest: string, done: seq<string>)
    requires |shown| == |row| > 0
    requires forall i :: 0 <= i < |row| ==> Renders(shown[i], row[i])
    requires rest != "" ==> rest[0] == '\r' || rest[0] == '\n'
    ensures Scan(Join(shown, ',') + rest, done, "", false)
         == Scan(rest, done + row[..|row| - 1], row[|row| - 1], false)
    decreases |row|
  {
    if |row| == 1 {
      ScanField(shown[0], row[0], rest, done);
      assert done + row[..0] == done;
    } else {
      hide Scan, Renders;
      var tail := [','] + Join(shown[1..], ',') + rest;
      assert Join(shown, ',') + rest == shown[0] + tail;
      ScanField(shown[0], row[0], tail, done);
      assert tail[1..] == Join(shown[1..], ',') + rest;
      ScanComma(tail, done, row[0]);
      ScanFields(shown[1..], row[1..], rest, done + [row[0]]);
      assert done + [row[0]] + row[1..][..|row| - 2] == done + row[..|row| - 1];
    }
  }

  lemma ScanEol(eol: string, rest: string, row: seq<string>, field: string)
    requires eol in {"\n", "\r\n"}
    ensures Scan(eol + rest, row, field, false) == [row + [field]] + Scan(rest, [], "", false)
  {
    if eol == "\r\n" {
      assert (eol + rest)[1..] == "\n" + rest;
    }
    assert ("\n" + rest)[1..] == rest;
  }

  /** One rendered record yields its row and resumes at a line start. */
  lemma ScanRecord(line: Line, row: seq<string>, rest: string)
    requires RendersRow(line, row) && row != []
    requires line.eol != ""
    ensures Scan(Join(line.fields, ',') + line.eol + rest, [], "", false) == [row] + Scan(rest, [], "", false)
  {
    var last := |row| - 1;
    assert Join(line.fields, ',') + line.eol + rest == Join(line.fields, ',') + (line.eol + rest);
    ScanFields(line.fields, row, line.eol + rest, []);
    ScanEol(line.eol, rest, [] + row[..last], row[last]);
    assert [] + row[..last] + [row[last]] == row;
  }

  lemma ScanLastRecord(line: Line, row: seq<string>)
    requires RendersRow(line, row) && row != []
    requires line.eol == ""
    ensures Survivors(Scan(Join(line.fields, ','), [], "", false)) == Survivors([row])
  {
    var last := |row| - 1;
    assert Join(line.fields, ',') + "" == Join(line.fields, ',');
    ScanFields(line.fields, row, "", []);
    assert [] + row[..last] + [row[last]] == row;
  }

  /** Likewise for any record, up to the rows the filter drops; no field at all reads as one empty field. */
  lemma ScanLine(line: Line, row: seq<string>, rest: string)
    requires RendersRow(line, row)
    requires rest != "" ==> line.eol != ""
    ensures Survivors(Scan(Join(line.fields, ',') + line.eol + rest, [], "", false))
         == Survivors([row]) + Survivors(Scan(rest, [], "", false))
  {
    var row' := if row == [] then [""] else row;
    var line' := if row == [] then Line([""], line.eol) else line;
    assert Renders("", "");
    if line.eol == "" {
      assert Join(line.fields, ',') + line.eol + rest == Join(line'.fields, ',');
      ScanLastRecord(line', row');
    } else {
      assert Join(line.fields, ',') == Join(line'.fields, ',');
      ScanRecord(line', row', rest);
      SurvivorsConcat([row'], Scan(rest, [], "", false));
    }
    assert Survivors([row']) == Survivors([row]);
  }

  /**
   * Every file RFC 4180 allows for `rows`, whatever its fields contain and
   * however it chooses to quote and end lines, parses to exactly those rows,
   * minus the ones that are a single empty field.
   */
  lemma {:induction false} ParseRendered(lines: seq<Line>, rows: seq<seq<string>>)
    requires RendersFile(lines, rows)
    ensures Parsed(FileText(lines)) == Survivors(rows)
  {
    if rows == [] {
    } else {
      var rest := FileText(lines[1..]);
      RendersTail(lines, rows);
      hide Scan, Join, RendersRow, Survives;
      ParseRendered(lines[1..], rows[1..]);
      ScanLine(lines[0], rows[0], rest);
      SurvivorsConcat([rows[0]], rows[1..]);
      assert [rows[0]] + rows[1..] == rows;
    }
  }

  lemma RendersTail(lines: seq<Line>, rows: seq<seq<string>>)
    requires RendersFile(lines, rows) && rows != []
    ensures RendersFile(lines[1..], rows[1..])
    ensures RendersRow(lines[0], rows[0]) && (FileText(lines[1..]) != "" ==> lines[0].eol != "")
  {
    hide RendersRow, Join;
    forall i | 0 <= i < |rows| - 1
      ensures RendersRow(lines[1..][i], rows[1..][i])
      ensures i + 1 < |rows| - 1 ==> lines[1..][i].eol != ""
    {
      assert RendersRow(lines[i + 1], rows[i + 1]);
    }
  }

  // ------------------------------------------------------------ the exporter

  /** A value of a result row: NULL, or its `String(...)` / `JSON.stringify(...)` text. */
  datatype Cell = Null | Scalar(text: string)

  function Shown(cell: Cell): string {
    match cell case Null => "" case Scalar(text) => text
  }

  predicate FormulaLike(text: string) {
    text != "" && text[0] in {'=', '+', '-', '@', '\t'}
  }

  function ToCsvValue(cell: Cell): (shown: string)
    ensures Renders(shown, Shown(cell))
    ensures var text := Shown(cell);
      if text != "" && (text[0] in {'=', '+', '-', '@', '\t'} || exists c <- text :: c in {'"', ',', '\r', '\n'})
      then shown == Quoted(text) else shown == text
  {
    match cell
    case Null => ""
    case Scalar(text) =>
      if (exists c <- text :: Special(c)) || FormulaLike(text) then Quoted(text) else text
  }

  function ShowAll(cells: seq<Cell>): (shown: seq<string>)
    ensures |shown| == |cells|
    ensures forall i :: 0 <= i < |cells| ==> shown[i] == ToCsvValue(cells[i])
  {
    seq(|cells|, i requires 0 <= i < |cells| => ToCsvValue(cells[i]))
  }

  function HeaderCells(header: seq<string>): (cells: seq<Cell>)
    ensures |cells| == |header| && Texts(cells) == header
  {
    seq(|header|, i requires 0 <= i < |header| => Scalar(header[i]))
  }

  /** The records of the export: the header names, then each row in header order. */
  function Records(header: seq<string>, rows: seq<map<string, Cell>>): seq<seq<Cell>> {
    [HeaderCells(header)] + Body(header, rows)
  }

  function Body(header: seq<string>, rows: seq<map<string, Cell>>): (r: seq<seq<Cell>>)
    ensures |r| == |rows|
  {
    if rows == [] then [] else [CellsOf(header, rows[0])] + Body(header, rows[1..])
  }

  function CellsOf(header: seq<string>, row: map<string, Cell>): (cells: seq<Cell>)
    ensures |cells| == |header|
  {
    seq(|header|, i requires 0 <= i < |header| => if header[i] in row then row[header[i]] else Null)
  }

  function Texts(cells: seq<Cell>): (texts: seq<string>)
    ensures |texts| == |cells|
    ensures forall i :: 0 <= i < |cells| ==> texts[i] == Shown(cells[i])
  {
    seq(|cells|, i requires 0 <= i < |cells| => Shown(cells[i]))
  }

  function AllTexts(records: seq<seq<Cell>>): (texts: seq<seq<string>>)
    ensures |texts| == |records|
    ensures forall i :: 0 <= i < |records| ==> texts[i] == Texts(records[i])
  {
    if records == [] then [] else [Texts(records[0])] + AllTexts(records[1..])
  }

  function ExportLines(records: seq<seq<Cell>>): (lines: seq<string>)
    ensures |lines| == |records|
  {
    if records == [] then [] else [Join(ShowAll(records[0]), ',')] + ExportLines(records[1..])
  }

  /** The text of an exported table. */
  function Exported(header: seq<string>, rows: seq<map<string, Cell>>): string {
    Join(ExportLines(Records(header, rows)), '\n')
  }

  method ExportCsv(header: seq<string>, rows: seq<map<string, Cell>>) returns (file: string)
    ensures file == Exported(header, rows)
  {
    var lines := [Join(ShowAll(HeaderCells(header)), ',')];
    for k := 0 to |rows|
      invariant lines + ExportLines(Body(header, rows[k..])) == ExportLines(Records(header, rows))
    {
      assert rows[k..][0] == rows[k] && rows[k..][1..] == rows[k + 1..];
      lines := lines + [Join(ShowAll(CellsOf(header, rows[k])), ',')];
    }
    assert rows[|rows|..] == [] && lines == ExportLines(Records(header, rows));
    file := Join(lines, '\n');
  }

  /** What the export writes, seen as RFC 4180 lines ended by a bare line feed. */
  function AsLines(records: seq<seq<Cell>>): (lines: seq<Line>)
    ensures |lines| == |records|
    ensures forall i :: 0 <= i < |records| ==>
      lines[i] == Line(ShowAll(records[i]), if i < |records| - 1 then "\n" else "")
  {
    seq(|records|, i requires 0 <= i < |records| =>
      Line(ShowAll(records[i]), if i < |records| - 1 then "\n" else ""))
  }

  lemma {:induction false} ExportIsFileText(records: seq<seq<Cell>>)
    ensures Join(ExportLines(records), '\n') == FileText(AsLines(records))
  {
    if |records| == 1 {
      assert FileText(AsLines(records)[1..]) == "";
      assert AsLines(records)[0].eol == "";
    } else if |records| > 1 {
      assert ExportLines(records)[1..] == ExportLines(records[1..]);
      assert AsLines(records)[1..] == AsLines(records[1..]);
      ExportIsFileText(records[1..]);
    }
  }

  /** Exporting then parsing returns the original texts; only single empty fields are lost. */
  lemma ExportParses(records: seq<seq<Cell>>)
    ensures Parsed(Join(ExportLines(records), '\n')) == Survivors(AllTexts(records))
  {
    ExportIsFileText(records);
    ParseRendered(AsLines(records), AllTexts(records));
  }

  // ------------------------------------------------------------ the importer

  datatype ImportError = NoHeader

  function Imported(text: string): Option<string> {
    if text == "" then None else Some(text)
  }

  /** The record object: later columns of the same name overwrite earlier ones. */
  function RecordOf(header: seq<string>, row: seq<string>): map<string, Option<string>> {
    if header == [] then map[]
    else
      var k := |header| - 1;
      RecordOf(header[..k], row)[header[k] := FieldAt(row, k)]
  }

  function ImportRecords(rows: seq<seq<string>>): Result<seq<map<string, Option<string>>>, ImportError> {
    if rows == [] then Err(NoHeader) else Ok(RecordsOf(rows[0], rows[1..]))
  }

  function RecordsOf(header: seq<string>, rows: seq<seq<string>>): seq<map<string, Option<string>>> {
    if rows == [] then [] else [RecordOf(header, rows[0])] + RecordsOf(header, rows[1..])
  }

  ghost predicate Distinct(names: seq<string>) {
    forall i, j :: 0 <= i < j < |names| ==> names[i] != names[j]
  }

  /** With distinct names, each column keeps its own field. */
  ghost predicate RecordFits(header: seq<string>, row: seq<string>, r: map<string, Option<string>>) {
    && (forall h :: h in r <==> h in header)
    && forall i :: 0 <= i < |header| ==>
        header[i] in r && r[header[i]] == if i < |row| && row[i] != "" then Some(row[i]) else None
  }

  function FieldAt(row: seq<string>, i: nat): Option<string> {
    if i < |row| then Imported(row[i]) else None
  }

  lemma FitsOneMore(header: seq<string>, row: seq<string>, r: map<string, Option<string>>, name: string)
    requires RecordFits(header, row, r) && name !in header
    ensures RecordFits(header + [name], row, r[name := FieldAt(row, |header|)])
  {
  }

  lemma {:induction false} RecordOfAt(header: seq<string>, row: seq<string>)
    requires Distinct(header)
    ensures RecordFits(header, row, RecordOf(header, row))
  {
    if header != [] {
      hide RecordFits, Imported;
      var k := |header| - 1;
      RecordOfAt(header[..k], row);
      assert header == header[..k] + [header[k]];
      FitsOneMore(header[..k], row, RecordOf(header[..k], row), header[k]);
    } else {
      assert RecordOf(header, row) == map[];
    }
  }

  /** What an exported row becomes once imported: NULL for NULL and for the empty text. */
  function Reimported(header: seq<string>, row: map<string, Cell>): map<string, Option<string>> {
    map h | h in header :: if h in row && Shown(row[h]) != "" then Some(Shown(row[h])) else None
  }

  lemma RecordOfExported(header: seq<string>, row: map<string, Cell>)
    requires Distinct(header)
    ensures RecordOf(header, Texts(CellsOf(header, row))) == Reimported(header, row)
  {
    var texts := Texts(CellsOf(header, row));
    RecordOfAt(header, texts);
    forall h | h in header
      ensures RecordOf(header, texts)[h] == Reimported(header, row)[h]
    {
      var i :| 0 <= i < |header| && header[i] == h;
    }
  }

  /** The rows a one-column export keeps: those whose text is not empty. */
  function Kept(header: seq<string>, rows: seq<map<string, Cell>>): seq<map<string, Cell>> {
    if rows == [] then []
    else (if Survives(Texts(CellsOf(header, rows[0]))) then [rows[0]] else []) + Kept(header, rows[1..])
  }

  function ReimportedAll(header: seq<string>, rows: seq<map<string, Cell>>): seq<map<string, Option<string>>> {
    if rows == [] then [] else [Reimported(header, rows[0])] + ReimportedAll(header, rows[1..])
  }

  lemma {:induction false} BodySurvivors(header: seq<string>, rows: seq<map<string, Cell>>)
    requires Distinct(header)
    ensures RecordsOf(header, Survivors(AllTexts(Body(header, rows)))) == ReimportedAll(header, Kept(header, rows))
  {
    if rows == [] {
    } else {
      var cells := CellsOf(header, rows[0]);
      var later := AllTexts(Body(header, rows[1..]));
      var rest := Survivors(later);
      assert Body(header, rows)[1..] == Body(header, rows[1..]);
      assert ([Texts(cells)] + later)[1..] == later;
      BodySurvivors(header, rows[1..]);
      RecordOfExported(header, rows[0]);
      var kept := Kept(header, rows[1..]);
      assert Survivors([Texts(cells)] + later) == (if Survives(Texts(cells)) then [Texts(cells)] + rest else rest);
      assert ([Texts(cells)] + rest)[1..] == rest;
      assert Kept(header, rows) == if Survives(Texts(cells)) then [rows[0]] + kept else kept;
      assert ([rows[0]] + kept)[1..] == kept;
    }
  }

  /**
   * The whole loop: a table exported and imported again comes back as itself,
   * with the empty text turned into NULL and nothing else changed, except that
   * a one-column table loses the rows that show as the empty text.
   */
  lemma ExportImportRoundTrip(header: seq<string>, rows: seq<map<string, Cell>>)
    requires Distinct(header) && Survives(header)
    ensures ImportRecords(Parsed(Exported(header, rows))) == Ok(ReimportedAll(header, Kept(header, rows)))
    ensures |header| > 1 ==> Kept(header, rows) == rows
  {
    var records := Records(header, rows);
    ExportParses(records);
    var body := AllTexts(Body(header, rows));
    assert AllTexts(records) == [header] + body;
    SurvivorsConcat([header], body);
    assert Survivors([header]) == [header];
    assert ([header] + Survivors(body))[1..] == Survivors(body);
    BodySurvivors(header, rows);
    if |header| > 1 { WideRowsKept(header, rows); }
  }

  lemma {:induction false} WideRowsKept(header: seq<string>, rows: seq<map<string, Cell>>)
    requires |header| > 1
    ensures Kept(header, rows) == rows
  {
    if rows == [] {
    } else {
      WideRowsKept(header, rows[1..]);
    }
  }

  /** With one column the round trip is exact if and only if no row shows as the empty text. */
  lemma {:induction false} NarrowRowsKept(header: seq<string>, rows: seq<map<string, Cell>>)
    requires |header| == 1
    ensures Kept(header, rows) == rows
        <==> forall row <- rows :: header[0] in row && Shown(row[header[0]]) != ""
    ensures |Kept(header, rows)| <= |rows|
  {
    if rows == [] {
    } else {
      NarrowRowsKept(header, rows[1..]);
      assert rows == [rows[0]] + rows[1..];
    }
  }
}
