/**
 * The importer from text to statements: the header row, the width, the types
 * and the INSERTs, against the table the file describes.
 */
module CsvImport {
  import opened Options
  import opened Text
  import opened CsvSql
  import opened Csv
  import CsvColumns

  const MAX_ROWS := 20000

  // ---- what the file describes --------------------------------------------

  /** Every cell is filled and some cell is not a number. */
  predicate LooksLikeHeader(row: Row, isFloat: string -> bool) {
    && (forall i :: 0 <= i < |row| ==> row[i] != "")
    && exists i :: 0 <= i < |row| && !IsInt(row[i]) && !isFloat(row[i])
  }

  predicate HasHeader(rows: seq<Row>, isFloat: string -> bool) {
    |rows| > 1 && LooksLikeHeader(rows[0], isFloat)
  }

  function HeaderRow(rows: seq<Row>, isFloat: string -> bool): Row {
    if HasHeader(rows, isFloat) then rows[0] else []
  }

  /** The rows that are imported: all but the header, up to the limit. */
  function Data(rows: seq<Row>, isFloat: string -> bool): seq<Row> {
    Take(if HasHeader(rows, isFloat) then rows[1..] else rows, MAX_ROWS)
  }

  function Width(rows: seq<Row>): nat {
    if rows == [] then 0
    else
      var m := Width(rows[..|rows| - 1]);
      var n := |rows[|rows| - 1]|;
      if n > m then n else m
  }

  /** The types the imported rows prove, column by column. */
  ghost function Types(rows: seq<Row>, width: nat, isFloat: string -> bool): seq<Type> {
    seq(width, c requires 0 <= c < width => Inferred(Column(rows, c), isFloat))
  }

  /** Column names before repeats are numbered; `name` makes an identifier of a header cell. */
  function Names(header: Row, width: nat, name: (string, string) -> string): seq<string> {
    seq(width, c requires 0 <= c < width => name(Cell(header, c), "c" + Shown(c + 1)))
  }

  /** The rows agree cell by cell, a missing cell being an empty one. */
  ghost predicate SameCells(a: seq<Row>, b: seq<Row>, width: nat) {
    |a| == |b| && forall i, c :: 0 <= i < |a| && 0 <= c < width ==> Cell(a[i], c) == Cell(b[i], c)
  }

  // ---- planning -----------------------------------------------------------

  method Widest(rows: seq<Row>) returns (width: nat)
    ensures width == Width(rows)
  {
    width := 0;
    for i := 0 to |rows|
      invariant width == Width(rows[..i])
    {
      assert rows[..i + 1][..i] == rows[..i];
      if |rows[i]| > width { width := |rows[i]|; }
    }
    assert rows[..|rows|] == rows;
  }

  /** Rows are cut to the width and filled up with empty cells. */
  method Squared(rows: seq<Row>, width: nat) returns (out: seq<Row>)
    ensures SameCells(out, rows, width)
    ensures forall i :: 0 <= i < |out| ==> |out[i]| == width
  {
    out := [];
    for i := 0 to |rows|
      invariant SameCells(out, rows[..i], width)
      invariant forall j :: 0 <= j < |out| ==> |out[j]| == width
    {
      var row := if |rows[i]| < width then rows[i] else rows[i][..width];
      while |row| < width
        invariant |row| <= width
        invariant forall c :: 0 <= c < width ==> Cell(row, c) == Cell(rows[i], c)
        decreases width - |row|
      {
        row := row + [""];
      }
      out := out + [row];
    }
    assert rows[..|rows|] == rows;
  }

  lemma SameColumns(a: seq<Row>, b: seq<Row>, width: nat, c: nat)
    requires SameCells(a, b, width) && c < width
    ensures Column(a, c) == Column(b, c)
  {
  }

  /**
   * The table of a file: it fails exactly on a file without rows, keeps the data
   * rows cell by cell and gives each column the type all of its values prove.
   */
  method PlanTable(rows: seq<Row>, table: string, isFloat: string -> bool, name: (string, string) -> string)
      returns (plan: Option<Plan>)
    ensures plan.None? <==> rows == []
    ensures plan.Some? ==>
              var p := plan.value;
              && p.table == table && |p.columns| == Width(rows)
              && SameCells(p.rows, Data(rows, isFloat), Width(rows))
              && p.types == Types(Data(rows, isFloat), Width(rows), isFloat)
              && CsvColumns.IsNumbering(Names(HeaderRow(rows, isFloat), Width(rows), name), p.columns)
  {
    hide IsInt, Shown, Inferred, CsvColumns.Numbered, CsvColumns.Occurrence;
    if rows == [] { return None; }
    var width := Widest(rows);
    var data := Data(rows, isFloat);
    var squared := Squared(data, width);
    var columns := CsvColumns.Unique(Names(HeaderRow(rows, isFloat), width, name));
    var types := [];
    for c := 0 to width
      invariant |types| == c
      invariant forall k :: 0 <= k < c ==> types[k] == Inferred(Column(data, k), isFloat)
    {
      var ty := InferType(Column(squared, c), isFloat);
      SameColumns(squared, data, width, c);
      types := types + [ty];
    }
    plan := Some(Plan(table, columns, types, squared));
  }

  // ---- from text to table --------------------------------------------------

  lemma TypesFit(rows: seq<Row>, width: nat, isFloat: string -> bool, number: string -> string)
    requires forall v :: isFloat(v) ==> PlainToken(number(v))
    ensures RowsOk(rows, Types(rows, width, isFloat), number)
  {
    hide PlainToken, RowsOk, Inferred;
    var columns := seq(width, c requires 0 <= c < width => "");
    InferredTypesFit(Plan("", columns, Types(rows, width, isFloat), rows), isFloat, number);
  }

  lemma StoredSame(a: seq<Row>, b: seq<Row>, types: seq<Type>, number: string -> string)
    requires SameCells(a, b, |types|) && RowsOk(b, types, number)
    ensures RowsOk(a, types, number)
    ensures StoredRows(a, types, number) == StoredRows(b, types, number)
  {
    hide CellOk, Stored, Cell;
    forall i | 0 <= i < |a|
      ensures RowOk(a[i], types, number) && StoredRow(a[i], types, number) == StoredRow(b[i], types, number)
    {
      assert RowOk(b[i], types, number);
      assert forall c :: 0 <= c < |types| ==> Cell(a[i], c) == Cell(b[i], c);
    }
  }

  /** The rows a database holds after importing the text. */
  ghost function Imported(text: string, delim: char, isFloat: string -> bool, number: string -> string): seq<seq<Value>>
    requires forall v :: isFloat(v) ==> PlainToken(number(v))
  {
    var rows := Parse(text, delim);
    var data := Data(rows, isFloat);
    TypesFit(data, Width(rows), isFloat, number);
    StoredRows(data, Types(data, Width(rows), isFloat), number)
  }

  /**
   * The whole importer: unless the text has no row, the statements drop and create the
   * table and their INSERTs decode to exactly what the text describes.
   */
  method Import(text: string, delim: char, table: string, isFloat: string -> bool, number: string -> string,
                name: (string, string) -> string)
      returns (out: Option<(seq<string>, Plan)>)
    requires forall v :: isFloat(v) ==> PlainToken(number(v))
    ensures out.None? <==> Parse(text, delim) == []
    ensures out.Some? ==>
              var (stmts, plan) := out.value;
              && |stmts| >= 2 && |plan.types| == |plan.columns|
              && stmts[..2] == ["DROP TABLE IF EXISTS " + table, "CREATE TABLE " + table + " (" + Columns(plan) + ")"]
              && ReadAll(stmts[2..], Header(plan)) == Some(Imported(text, delim, isFloat, number))
  {
    hide Parse, Data, Types, StoredRows, RowsOk, Width, ReadAll, Header, Columns, Imported, SameCells, PlainToken;
    var rows := ParseCsv(text, delim);
    var planned := PlanTable(rows, table, isFloat, name);
    if planned.None? { return None; }
    var plan := planned.value;
    TypesWide(Data(rows, isFloat), Width(rows), isFloat);
    TypesFit(Data(rows, isFloat), Width(rows), isFloat, number);
    StoredSame(plan.rows, Data(rows, isFloat), plan.types, number);
    ImportedIs(text, delim, isFloat, number);
    var stmts := ToSql(plan, number);
    out := Some((stmts, plan));
  }

  lemma TypesWide(rows: seq<Row>, width: nat, isFloat: string -> bool)
    ensures |Types(rows, width, isFloat)| == width
  {
  }

  lemma ImportedIs(text: string, delim: char, isFloat: string -> bool, number: string -> string)
    requires forall v :: isFloat(v) ==> PlainToken(number(v))
    ensures var rows := Parse(text, delim);
            var data := Data(rows, isFloat);
            var types := Types(data, Width(rows), isFloat);
            RowsOk(data, types, number) && Imported(text, delim, isFloat, number) == StoredRows(data, types, number)
  {
    hide Inferred, Parse, Data, Types, StoredRows, RowsOk;
    TypesFit(Data(Parse(text, delim), isFloat), Width(Parse(text, delim)), isFloat, number);
  }

  /** A table that is printed under a header and imported comes back row by row, up to the limit. */
  lemma PrintedTableImports(header: Row, data: seq<Row>, delim: char, eol: string, closed: bool,
                            isFloat: string -> bool, number: string -> string)
    requires Separates(delim, eol) && forall v :: isFloat(v) ==> PlainToken(number(v))
    requires LooksLikeHeader(header, isFloat) && Kept(data) != []
    ensures var kept := Take(Kept(data), MAX_ROWS);
            var types := Types(kept, Width([header] + Kept(data)), isFloat);
            && RowsOk(kept, types, number)
            && Imported(Print([header] + data, delim, eol, closed), delim, isFloat, number) ==
               StoredRows(kept, types, number)
  {
    hide Print, Parse, Types, StoredRows, RowsOk, Width, IsInt, Take;
    var rows := [header] + data;
    ParseOfPrint(rows, delim, eol, closed);
    KeptApart(rows);
    KeptOne(header);
    assert rows[1..] == data;
    assert Kept(rows) == [header] + Kept(data) && Kept(rows)[1..] == Kept(data);
    ImportedIs(Print(rows, delim, eol, closed), delim, isFloat, number);
  }

  // ---- what a stored value says about its cell -----------------------------

  lemma {:induction false} ShownDecimal(s: string)
    requires s != "" && AllDigits(s) && (|s| > 1 ==> s[0] != '0')
    ensures Shown(Decimal(s)) == s
    ensures s[0] != '0' ==> Decimal(s) > 0
    decreases |s|
  {
    var n := |s| - 1;
    assert s == s[..n] + [s[n]];
    if n == 0 {
      assert Decimal(s[..n]) == 0;
    } else {
      ShownDecimal(s[..n]);
      assert Decimal(s) / 10 == Decimal(s[..n]) && Decimal(s) % 10 == DigitValue(s[n]);
    }
  }

  predicate Negative(v: string) {
    v != "" && v[0] == '-'
  }

  /** The cells an importer may confuse: one number with and without a plus sign, and a signed zero. */
  predicate Alike(v: string, w: string, ty: Type) {
    || v == w
    || (ty == INT && v != "" && w != "" && Unsigned(v) == Unsigned(w) &&
        (Negative(v) == Negative(w) || Unsigned(v) == "0"))
  }

  lemma DigitsOf(v: string)
    requires IsInt(v)
    ensures Shown(Decimal(Unsigned(v))) == Unsigned(v)
    ensures Decimal(Unsigned(v)) == 0 <==> Unsigned(v) == "0"
  {
    var d := Unsigned(v);
    assert IsDigit(d[0]);
    assert |d| > 1 ==> IsDigit(d[1]);
    ShownDecimal(d);
  }

  /**
   * The rule of the importer: a value that is stored is the value the file holds. TEXT and INT
   * cells are stored alike exactly when they are alike.
   */
  lemma StoredTellsTheCell(v: string, w: string, ty: Type, number: string -> string)
    requires ty != FLOAT && CellOk(v, ty, number) && CellOk(w, ty, number)
    ensures Stored(v, ty, number) == Stored(w, ty, number) <==> Alike(v, w, ty)
  {
    hide IsInt, Decimal, Shown;
    if ty == INT && v != "" && w != "" {
      DigitsOf(v);
      DigitsOf(w);
    }
  }
}
