/**
 * The CSV reader: RFC 4180 quoting with a chosen delimiter, bare carriage
 * returns ignored, unquoted cells trimmed and blank lines dropped.
 */
module Csv {

  type Row = seq<string>

  /** White space as `String.prototype.trim` removes it. */
  predicate IsSpace(c: char) {
    || '\t' <= c <= '\r' || c == ' ' || c == '\U{a0}' || c == '\U{1680}'
    || '\U{2000}' <= c <= '\U{200a}' || c == '\U{2028}' || c == '\U{2029}'
    || c == '\U{202f}' || c == '\U{205f}' || c == '\U{3000}' || c == '\U{feff}'
  }

  function TrimStart(s: string): string {
    if s != [] && IsSpace(s[0]) then TrimStart(s[1..]) else s
  }

  function TrimEnd(s: string): string {
    if s != [] && IsSpace(s[|s| - 1]) then TrimEnd(s[..|s| - 1]) else s
  }

  function Trim(s: string): string {
    TrimEnd(TrimStart(s))
  }

  // ---- the reader ---------------------------------------------------------

  datatype Reader = Reader(rows: seq<Row>, row: Row, field: string, inQuotes: bool, quoted: bool)

  const START := Reader([], [], "", false, false)

  /** A line that is not a lone empty cell. */
  predicate Storable(row: Row) {
    |row| > 1 || (|row| == 1 && row[0] != "")
  }

  function EndCell(r: Reader): Reader {
    r.(row := r.row + [if r.quoted then r.field else Trim(r.field)], field := "", quoted := false)
  }

  function EndLine(r: Reader): Reader {
    var e := EndCell(r);
    e.(rows := if Storable(e.row) then e.rows + [e.row] else e.rows, row := [])
  }

  /** What the reader has read after the rest of the text. */
  function Scan(s: string, delim: char, r: Reader): Reader
    decreases |s|
  {
    if s == [] then r
    else if r.inQuotes then
      if s[0] == '"' then
        if |s| > 1 && s[1] == '"' then Scan(s[2..], delim, r.(field := r.field + "\""))
        else Scan(s[1..], delim, r.(inQuotes := false))
      else Scan(s[1..], delim, r.(field := r.field + [s[0]]))
    else if s[0] == '"' && r.field == "" then Scan(s[1..], delim, r.(inQuotes := true, quoted := true))
    else if s[0] == delim then Scan(s[1..], delim, EndCell(r))
    else if s[0] == '\r' then Scan(s[1..], delim, r)
    else if s[0] == '\n' then Scan(s[1..], delim, EndLine(r))
    else Scan(s[1..], delim, r.(field := r.field + [s[0]]))
  }

  function Finish(r: Reader): seq<Row> {
    if r.field != "" || r.row != [] then EndLine(r).rows else r.rows
  }

  function WithoutMark(text: string): string {
    if text != [] && text[0] == '\U{feff}' then text[1..] else text
  }

  function Parse(text: string, delim: char): seq<Row> {
    Finish(Scan(WithoutMark(text), delim, START))
  }

  /** The loop over an index and four variables reads what the automaton reads. */
  method ParseCsv(text: string, delim: char) returns (rows: seq<Row>)
    ensures rows == Parse(text, delim)
  {
    var s := if text != [] && text[0] == '\U{feff}' then text[1..] else text;
    rows := [];
    var row: Row, field, inQuotes, quoted, i := [], "", false, false, 0;
    assert s[0..] == s;
    while i < |s|
      invariant 0 <= i <= |s|
      invariant Scan(s, delim, START) == Scan(s[i..], delim, Reader(rows, row, field, inQuotes, quoted))
    {
      var c := s[i];
      assert s[i..][0] == c && s[i..][1..] == s[i + 1..];
      assert i + 1 < |s| ==> s[i..][1] == s[i + 1] && s[i..][2..] == s[i + 2..];
      if inQuotes {
        if c == '"' {
          if i + 1 < |s| && s[i + 1] == '"' {
            field := field + "\"";
            i := i + 2;
          } else {
            inQuotes := false;
            i := i + 1;
          }
        } else {
          field := field + [c];
          i := i + 1;
        }
      } else if c == '"' && field == "" {
        inQuotes, quoted := true, true;
        i := i + 1;
      } else if c == delim {
        row := row + [if quoted then field else Trim(field)];
        field, quoted := "", false;
        i := i + 1;
      } else if c == '\r' {
        i := i + 1;
      } else if c == '\n' {
        row := row + [if quoted then field else Trim(field)];
        if |row| > 1 || row[0] != "" {
          rows := rows + [row];
        }
        row, field, quoted := [], "", false;
        i := i + 1;
      } else {
        field := field + [c];
        i := i + 1;
      }
    }
    if field != "" || row != [] {
      row := row + [if quoted then field else Trim(field)];
      if |row| > 1 || row[0] != "" {
        rows := rows + [row];
      }
    }
  }

  // ---- the fully quoted rendering -----------------------------------------

  function Escaped(cell: string): string {
    if cell == [] then []
    else (if cell[0] == '"' then "\"\"" else [cell[0]]) + Escaped(cell[1..])
  }

  function PrintCell(cell: string): string {
    "\"" + Escaped(cell) + "\""
  }

  function PrintRow(row: Row, delim: char): string {
    if row == [] then ""
    else if |row| == 1 then PrintCell(row[0])
    else PrintCell(row[0]) + [delim] + PrintRow(row[1..], delim)
  }

  /** Lines end in `eol`; the last one may be left open. */
  function Print(rows: seq<Row>, delim: char, eol: string, closed: bool): string {
    if rows == [] then ""
    else if |rows| == 1 && !closed then PrintRow(rows[0], delim)
    else PrintRow(rows[0], delim) + eol + Print(rows[1..], delim, eol, closed)
  }

  /** The rows a file can hold. */
  function Kept(rows: seq<Row>): seq<Row> {
    if rows == [] then []
    else (if Storable(rows[0]) then [rows[0]] else []) + Kept(rows[1..])
  }

  predicate Separates(delim: char, eol: string) {
    delim != '"' && delim != '\r' && delim != '\n' && (eol == "\n" || eol == "\r\n")
  }

  lemma {:induction false} ScanEscaped(cell: string, rest: string, delim: char, r: Reader)
    requires r.inQuotes && (rest == [] || rest[0] != '"')
    ensures Scan(Escaped(cell) + "\"" + rest, delim, r) ==
            Scan(rest, delim, r.(field := r.field + cell, inQuotes := false))
    decreases |cell|
  {
    var s := Escaped(cell) + "\"" + rest;
    if cell == [] {
      assert s == "\"" + rest && s[1..] == rest;
      assert r.field + cell == r.field;
    } else {
      var tail := Escaped(cell[1..]) + "\"" + rest;
      var next := r.(field := r.field + [cell[0]]);
      assert r.field + [cell[0]] + cell[1..] == r.field + cell by {
        assert [cell[0]] + cell[1..] == cell;
      }
      ScanEscaped(cell[1..], rest, delim, next);
      if cell[0] == '"' {
        assert s == "\"\"" + tail && s[2..] == tail;
      } else {
        assert s == [cell[0]] + tail && s[1..] == tail;
      }
    }
  }

  lemma ScanCell(cell: string, rest: string, delim: char, r: Reader)
    requires !r.inQuotes && r.field == "" && (rest == [] || rest[0] != '"')
    ensures Scan(PrintCell(cell) + rest, delim, r) == Scan(rest, delim, r.(field := cell, quoted := true))
  {
    var s := PrintCell(cell) + rest;
    var inner := Escaped(cell) + "\"" + rest;
    assert s == "\"" + inner && s[1..] == inner;
    ScanEscaped(cell, rest, delim, r.(inQuotes := true, quoted := true));
    assert "" + cell == cell;
  }

  lemma ScanDelim(rest: string, delim: char, r: Reader)
    requires !r.inQuotes && delim != '"'
    ensures Scan([delim] + rest, delim, r) == Scan(rest, delim, EndCell(r))
  {
    assert ([delim] + rest)[1..] == rest;
  }

  /** After a printed line the reader holds its cells, the last one still open. */
  lemma {:induction false} ScanRow(row: Row, rest: string, delim: char, r: Reader)
    requires !r.inQuotes && r.field == "" && row != []
    requires delim != '"' && (rest == [] || rest[0] != '"')
    ensures Scan(PrintRow(row, delim) + rest, delim, r) ==
            Scan(rest, delim, r.(row := r.row + row[..|row| - 1], field := row[|row| - 1], quoted := true))
    decreases |row|
  {
    hide PrintCell, Scan;
    if |row| == 1 {
      ScanCell(row[0], rest, delim, r);
      assert r.row + row[..0] == r.row;
    } else {
      var tail := PrintRow(row[1..], delim) + rest;
      assert PrintRow(row, delim) + rest == PrintCell(row[0]) + ([delim] + tail);
      ScanCell(row[0], [delim] + tail, delim, r);
      var open := r.(field := row[0], quoted := true);
      ScanDelim(tail, delim, open);
      ScanRow(row[1..], rest, delim, EndCell(open));
      assert r.row + [row[0]] + row[1..][..|row| - 2] == r.row + row[..|row| - 1] by {
        assert [row[0]] + row[1..][..|row| - 2] == row[..|row| - 1];
      }
    }
  }

  lemma ScanEol(rest: string, delim: char, eol: string, r: Reader)
    requires Separates(delim, eol) && !r.inQuotes
    ensures Scan(eol + rest, delim, r) == Scan(rest, delim, EndLine(r))
  {
    assert ("\n" + rest)[1..] == rest;
    if eol == "\r\n" {
      assert (eol + rest)[1..] == "\n" + rest;
    }
  }

  /** A reader between two lines. */
  predicate AtLineStart(r: Reader) {
    r.row == [] && r.field == "" && !r.inQuotes && !r.quoted
  }

  lemma ScanNothing(delim: char, r: Reader)
    ensures Scan("", delim, r) == r
  {
  }

  lemma TrimEmpty()
    ensures Trim("") == ""
  {
  }

  lemma KeptOne(row: Row)
    ensures Kept([row]) == if Storable(row) then [row] else []
  {
    assert [row][1..] == [];
  }

  /** The reader at the end of a printed line, before its line end. */
  lemma LineRead(row: Row, delim: char, r: Reader)
    requires AtLineStart(r) && delim != '"'
    ensures var e := Scan(PrintRow(row, delim), delim, r);
            e == if row == [] then r else r.(row := row[..|row| - 1], field := row[|row| - 1], quoted := true)
  {
    hide Scan, PrintCell;
    var s := PrintRow(row, delim);
    assert s + "" == s;
    if row != [] {
      ScanRow(row, "", delim, r);
      assert [] + row[..|row| - 1] == row[..|row| - 1];
      ScanNothing(delim, r.(row := row[..|row| - 1], field := row[|row| - 1], quoted := true));
    } else {
      ScanNothing(delim, r);
    }
  }

  lemma OpenLine(row: Row, delim: char, r: Reader)
    requires AtLineStart(r) && delim != '"'
    ensures var e := Scan(PrintRow(row, delim), delim, r);
            && !e.inQuotes
            && EndLine(e) == r.(rows := r.rows + Kept([row]))
            && Finish(e) == r.rows + Kept([row])
  {
    hide Scan, PrintRow, Trim, Kept;
    LineRead(row, delim, r);
    KeptOne(row);
    TrimEmpty();
    assert row != [] ==> row[..|row| - 1] + [row[|row| - 1]] == row;
    assert r.rows + [] == r.rows;
  }

  lemma {:induction false} ScanAppend(a: string, b: string, delim: char, r: Reader)
    requires b != [] && b[0] != '"'
    ensures Scan(a + b, delim, r) == Scan(b, delim, Scan(a, delim, r))
    decreases |a|
  {
    if a == [] {
      assert a + b == b;
    } else {
      assert (a + b)[1..] == a[1..] + b;
      assert |a| > 1 ==> (a + b)[2..] == a[2..] + b && (a + b)[1] == a[1];
      assert |a| == 1 ==> (a + b)[1] == b[0];
      if r.inQuotes && a[0] == '"' && |a| > 1 && a[1] == '"' {
        ScanAppend(a[2..], b, delim, r.(field := r.field + "\""));
      } else if r.inQuotes && a[0] == '"' {
        ScanAppend(a[1..], b, delim, r.(inQuotes := false));
      } else if r.inQuotes {
        ScanAppend(a[1..], b, delim, r.(field := r.field + [a[0]]));
      } else if a[0] == '"' && r.field == "" {
        ScanAppend(a[1..], b, delim, r.(inQuotes := true, quoted := true));
      } else if a[0] == delim {
        ScanAppend(a[1..], b, delim, EndCell(r));
      } else if a[0] == '\r' {
        ScanAppend(a[1..], b, delim, r);
      } else if a[0] == '\n' {
        ScanAppend(a[1..], b, delim, EndLine(r));
      } else {
        ScanAppend(a[1..], b, delim, r.(field := r.field + [a[0]]));
      }
    }
  }

  lemma {:induction false} ScanPrinted(rows: seq<Row>, delim: char, eol: string, closed: bool, r: Reader)
    requires Separates(delim, eol) && AtLineStart(r)
    ensures Finish(Scan(Print(rows, delim, eol, closed), delim, r)) == r.rows + Kept(rows)
    decreases |rows|
  {
    hide PrintRow, EndLine, EndCell, Storable, Scan, Finish, Kept;
    if rows == [] {
      ScanNothing(delim, r);
      NothingOpen(r);
    } else if |rows| == 1 && !closed {
      OpenLine(rows[0], delim, r);
      assert rows == [rows[0]];
    } else {
      var line, rest := PrintRow(rows[0], delim), Print(rows[1..], delim, eol, closed);
      OpenLine(rows[0], delim, r);
      assert Print(rows, delim, eol, closed) == line + (eol + rest);
      ScanAppend(line, eol + rest, delim, r);
      ScanEol(rest, delim, eol, Scan(line, delim, r));
      var next := r.(rows := r.rows + Kept([rows[0]]));
      ScanPrinted(rows[1..], delim, eol, closed, next);
      KeptApart(rows);
      assert r.rows + Kept([rows[0]]) + Kept(rows[1..]) == r.rows + (Kept([rows[0]]) + Kept(rows[1..]));
    }
  }

  lemma NothingOpen(r: Reader)
    requires AtLineStart(r)
    ensures Finish(r) == r.rows + Kept([])
  {
  }

  lemma KeptApart(rows: seq<Row>)
    requires rows != []
    ensures Kept(rows) == Kept([rows[0]]) + Kept(rows[1..])
  {
    KeptOne(rows[0]);
  }

  /**
   * The round trip, for every table: quotes, delimiters and line breaks inside
   * cells survive, and exactly the rows that cannot be stored are dropped.
   */
  lemma ParseOfPrint(rows: seq<Row>, delim: char, eol: string, closed: bool)
    requires Separates(delim, eol)
    ensures Parse(Print(rows, delim, eol, closed), delim) == Kept(rows)
  {
    hide Scan, Finish;
    var text := Print(rows, delim, eol, closed);
    PrintedStart(rows, delim, eol, closed);
    ScanPrinted(rows, delim, eol, closed, START);
    assert [] + Kept(rows) == Kept(rows);
  }

  lemma PrintedStart(rows: seq<Row>, delim: char, eol: string, closed: bool)
    requires Separates(delim, eol)
    ensures var text := Print(rows, delim, eol, closed); WithoutMark(text) == text
  {
  }

  lemma {:induction false} KeptIsIdentity(rows: seq<Row>)
    ensures Kept(rows) == rows <==> forall row :: row in rows ==> Storable(row)
    ensures |Kept(rows)| <= |rows|
  {
    if rows != [] {
      KeptIsIdentity(rows[1..]);
      assert rows == [rows[0]] + rows[1..];
    }
  }

  lemma {:induction false} ScanKeepsStorable(s: string, delim: char, r: Reader)
    requires forall row :: row in r.rows ==> Storable(row)
    ensures forall row :: row in Scan(s, delim, r).rows ==> Storable(row)
    decreases |s|
  {
    hide Storable, Trim;
    if s != [] {
      if r.inQuotes && s[0] == '"' && |s| > 1 && s[1] == '"' {
        ScanKeepsStorable(s[2..], delim, r.(field := r.field + "\""));
      } else if r.inQuotes && s[0] == '"' {
        ScanKeepsStorable(s[1..], delim, r.(inQuotes := false));
      } else if r.inQuotes {
        ScanKeepsStorable(s[1..], delim, r.(field := r.field + [s[0]]));
      } else if s[0] == '"' && r.field == "" {
        ScanKeepsStorable(s[1..], delim, r.(inQuotes := true, quoted := true));
      } else if s[0] == delim {
        ScanKeepsStorable(s[1..], delim, EndCell(r));
      } else if s[0] == '\r' {
        ScanKeepsStorable(s[1..], delim, r);
      } else if s[0] == '\n' {
        ScanKeepsStorable(s[1..], delim, EndLine(r));
      } else {
        ScanKeepsStorable(s[1..], delim, r.(field := r.field + [s[0]]));
      }
    }
  }

  /** Reading any text, printing what was read and reading it again changes nothing. */
  lemma ParsePrintParse(text: string, delim: char, eol: string, closed: bool)
    requires Separates(delim, eol)
    ensures var rows := Parse(text, delim); Parse(Print(rows, delim, eol, closed), delim) == rows
  {
    var rows := Parse(text, delim);
    ScanKeepsStorable(WithoutMark(text), delim, START);
    ParseOfPrint(rows, delim, eol, closed);
    KeptIsIdentity(rows);
  }
}
