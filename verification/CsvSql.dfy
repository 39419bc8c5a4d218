/**
 * The importer's choice of column types and the INSERT statements it writes,
 * against a reader of SQL literals.
 */
module CsvSql {
  import opened Options
  import opened Text

  datatype Type = TEXT | INT | FLOAT

  datatype Plan = Plan(table: string, columns: seq<string>, types: seq<Type>, rows: seq<seq<string>>)

  const CHUNK := 200

  // ---- integers -----------------------------------------------------------

  function Unsigned(v: string): string {
    if v != "" && (v[0] == '+' || v[0] == '-') then v[1..] else v
  }

  predicate LeadingZeroed(v: string) {
    var d := Unsigned(v);
    |d| > 1 && d[0] == '0' && d[1] != '.'
  }

  predicate SignedDigits(v: string) {
    Unsigned(v) != "" && AllDigits(Unsigned(v))
  }

  /** An optional sign and one to fifteen digits, not written like a postcode. */
  predicate IsInt(v: string) {
    SignedDigits(v) && |Unsigned(v)| <= 15 && !LeadingZeroed(v)
  }

  function IntValue(v: string): int
    requires SignedDigits(v)
  {
    var n: int := Decimal(Unsigned(v));
    if v[0] == '-' then -n else n
  }

  // ---- type inference -----------------------------------------------------

  ghost predicate NoValue(cells: seq<string>) {
    forall i :: 0 <= i < |cells| ==> cells[i] == ""
  }

  ghost predicate All(cells: seq<string>, p: string -> bool) {
    forall v :: v in cells && v != "" ==> p(v)
  }

  /** The type every non-empty value proves, and TEXT when there is no value at all. */
  ghost function Inferred(cells: seq<string>, isFloat: string -> bool): Type {
    if NoValue(cells) then TEXT
    else if All(cells, IsInt) then INT
    else if All(cells, isFloat) then FLOAT
    else TEXT
  }

  method InferType(cells: seq<string>, isFloat: string -> bool) returns (ty: Type)
    ensures ty == Inferred(cells, isFloat)
  {
    hide IsInt;
    var sawValue, allInt, allFloat := false, true, true;
    var i := 0;
    while i < |cells|
      invariant 0 <= i <= |cells|
      invariant sawValue == !NoValue(cells[..i])
      invariant allInt == All(cells[..i], IsInt)
      invariant allFloat == All(cells[..i], isFloat)
    {
      var v := cells[i];
      assert cells[..i + 1] == cells[..i] + [v];
      if v != "" {
        sawValue := true;
        if !IsInt(v) { allInt := false; }
        if !isFloat(v) { allFloat := false; }
        if !allInt && !allFloat {
          Witnessed(cells, i + 1, isFloat);
          return TEXT;
        }
      }
      i := i + 1;
    }
    assert cells[..|cells|] == cells;
    ty := if !sawValue then TEXT else if allInt then INT else if allFloat then FLOAT else TEXT;
  }

  /** Leaving the loop early is safe: a value that rules a type out keeps ruling it out. */
  lemma Witnessed(cells: seq<string>, n: nat, isFloat: string -> bool)
    requires n <= |cells|
    requires !All(cells[..n], IsInt) && !All(cells[..n], isFloat)
    ensures Inferred(cells, isFloat) == TEXT
  {
    hide IsInt;
    var v :| v in cells[..n] && v != "" && !IsInt(v);
    var w :| w in cells[..n] && w != "" && !isFloat(w);
    assert v in cells && w in cells;
  }

  // ---- writing ------------------------------------------------------------

  function Doubled(v: string): string {
    if v == "" then "" else (if v[0] == '\'' then "''" else [v[0]]) + Doubled(v[1..])
  }

  /** The SQL literal of a cell; `number` renders a FLOAT cell. */
  function Lit(v: string, ty: Type, number: string -> string): string {
    if v == "" then "NULL"
    else match ty
      case INT => if v[0] == '+' then v[1..] else v
      case FLOAT => number(v)
      case TEXT => "'" + Doubled(v) + "'"
  }

  function Join(parts: seq<string>): string {
    if parts == [] then ""
    else if |parts| == 1 then parts[0]
    else parts[0] + ", " + Join(parts[1..])
  }

  function Cell(row: seq<string>, c: nat): string {
    if c < |row| then row[c] else ""
  }

  function Tuple(row: seq<string>, types: seq<Type>, number: string -> string): string {
    "(" + Join(seq(|types|, c requires 0 <= c < |types| => Lit(Cell(row, c), types[c], number))) + ")"
  }

  function Tuples(rows: seq<seq<string>>, types: seq<Type>, number: string -> string): string {
    Join(seq(|rows|, i requires 0 <= i < |rows| => Tuple(rows[i], types, number)))
  }

  function Header(plan: Plan): string {
    "INSERT INTO " + plan.table + " (" + Join(plan.columns) + ") VALUES "
  }

  function TypeName(ty: Type): string {
    match ty case TEXT => "TEXT" case INT => "INT" case FLOAT => "FLOAT"
  }

  function Columns(plan: Plan): string
    requires |plan.types| == |plan.columns|
  {
    Join(seq(|plan.columns|, c requires 0 <= c < |plan.columns| => plan.columns[c] + " " + TypeName(plan.types[c])))
  }

  // ---- reading literals back ----------------------------------------------

  datatype Value = Null | Text(text: string) | Int(n: int) | Other(token: string)

  function ReadText(s: string): (r: Option<(string, string)>)
    ensures r.Some? ==> |r.value.1| < |s|
    decreases |s|
  {
    if s == "" then None
    else if s[0] != '\'' then Prefixed(s[0], ReadText(s[1..]))
    else if |s| > 1 && s[1] == '\'' then Prefixed('\'', ReadText(s[2..]))
    else Some(("", s[1..]))
  }

  function Prefixed(c: char, r: Option<(string, string)>): Option<(string, string)> {
    match r case None => None case Some(p) => Some(([c] + p.0, p.1))
  }

  function ReadToken(s: string): (r: (string, string))
    ensures |r.0| + |r.1| == |s|
  {
    if s == "" || s[0] == ',' || s[0] == ')' then ("", s)
    else var r := ReadToken(s[1..]); ([s[0]] + r.0, r.1)
  }

  function TokenValue(t: string): Value {
    if t == "NULL" then Null else if SignedDigits(t) then Int(IntValue(t)) else Other(t)
  }

  function ReadLiteral(s: string): (r: Option<(Value, string)>)
    ensures r.Some? ==> |r.value.1| < |s|
  {
    if s == "" then None
    else if s[0] == '\'' then
      match ReadText(s[1..]) case None => None case Some(p) => Some((Text(p.0), p.1))
    else
      var r := ReadToken(s);
      if r.0 == "" then None else Some((TokenValue(r.0), r.1))
  }

  /** The literals up to the closing parenthesis. */
  function ReadCells(s: string): (r: Option<(seq<Value>, string)>)
    ensures r.Some? ==> |r.value.1| < |s|
    decreases |s|
  {
    match ReadLiteral(s)
    case None => None
    case Some(p) =>
      if p.1 == "" then None
      else if p.1[0] == ')' then Some(([p.0], p.1[1..]))
      else if |p.1| > 1 && p.1[..2] == ", " then
        match ReadCells(p.1[2..])
        case None => None
        case Some(q) => Some(([p.0] + q.0, q.1))
      else None
  }

  function ReadTuple(s: string): (r: Option<(seq<Value>, string)>)
    ensures r.Some? ==> |r.value.1| < |s|
  {
    if |s| < 2 || s[0] != '(' then None
    else if s[1] == ')' then Some(([], s[2..]))
    else ReadCells(s[1..])
  }

  function ReadTuples(s: string): Option<seq<seq<Value>>>
    decreases |s|
  {
    match ReadTuple(s)
    case None => None
    case Some(p) =>
      if p.1 == "" then Some([p.0])
      else if |p.1| > 1 && p.1[..2] == ", " then
        match ReadTuples(p.1[2..])
        case None => None
        case Some(q) => Some([p.0] + q)
      else None
  }

  function ReadInsert(stmt: string, header: string): Option<seq<seq<Value>>> {
    if header <= stmt then ReadTuples(stmt[|header|..]) else None
  }

  /** The rows of a list of INSERT statements, in order. */
  function ReadAll(stmts: seq<string>, header: string): Option<seq<seq<Value>>> {
    if stmts == [] then Some([])
    else
      match (ReadAll(stmts[..|stmts| - 1], header), ReadInsert(stmts[|stmts| - 1], header))
      case (Some(a), Some(b)) => Some(a + b)
      case _ => None
  }

  // ---- what the table should hold -----------------------------------------

  /** A rendered number: no separator of the statement occurs in it. */
  ghost predicate PlainToken(t: string) {
    t != "" && t[0] != '\'' && forall c :: c in t ==> c != ',' && c != ')'
  }

  ghost predicate CellOk(v: string, ty: Type, number: string -> string) {
    v != "" ==> (ty == INT ==> IsInt(v)) && (ty == FLOAT ==> PlainToken(number(v)))
  }

  /** The value a cell stands for. */
  ghost function Stored(v: string, ty: Type, number: string -> string): Value
    requires CellOk(v, ty, number)
  {
    if v == "" then Null
    else match ty
      case TEXT => Text(v)
      case INT => Int(IntValue(v))
      case FLOAT => TokenValue(number(v))
  }

  ghost predicate RowOk(row: seq<string>, types: seq<Type>, number: string -> string) {
    forall c :: 0 <= c < |types| ==> CellOk(Cell(row, c), types[c], number)
  }

  ghost predicate RowsOk(rows: seq<seq<string>>, types: seq<Type>, number: string -> string) {
    forall i :: 0 <= i < |rows| ==> RowOk(rows[i], types, number)
  }

  ghost function StoredRow(row: seq<string>, types: seq<Type>, number: string -> string): seq<Value>
    requires RowOk(row, types, number)
  {
    seq(|types|, c requires 0 <= c < |types| => Stored(Cell(row, c), types[c], number))
  }

  ghost function StoredRows(rows: seq<seq<string>>, types: seq<Type>, number: string -> string): seq<seq<Value>>
    requires RowsOk(rows, types, number)
  {
    seq(|rows|, i requires 0 <= i < |rows| => StoredRow(rows[i], types, number))
  }

  function Column(rows: seq<seq<string>>, c: nat): seq<string> {
    seq(|rows|, i requires 0 <= i < |rows| => Cell(rows[i], c))
  }

  /** Inferred types are sound: an INT column holds only integers and empty cells. */
  lemma InferredTypesFit(plan: Plan, isFloat: string -> bool, number: string -> string)
    requires forall v :: isFloat(v) ==> PlainToken(number(v))
    requires |plan.types| == |plan.columns|
    requires forall c :: 0 <= c < |plan.types| ==> plan.types[c] == Inferred(Column(plan.rows, c), isFloat)
    ensures RowsOk(plan.rows, plan.types, number)
  {
    hide IsInt, PlainToken;
    forall i, c | 0 <= i < |plan.rows| && 0 <= c < |plan.types|
      ensures CellOk(Cell(plan.rows[i], c), plan.types[c], number)
    {
      assert Column(plan.rows, c)[i] == Cell(plan.rows[i], c);
    }
  }

  // ---- literals are read back ---------------------------------------------

  ghost predicate EndsCell(rest: string) {
    rest != "" && (rest[0] == ',' || rest[0] == ')')
  }

  ghost predicate ReadsAs(t: string, v: Value) {
    t != "" && t[0] != ')' && forall rest :: EndsCell(rest) ==> ReadLiteral(t + rest) == Some((v, rest))
  }

  lemma {:induction false} TextRead(v: string, rest: string)
    requires rest == "" || rest[0] != '\''
    ensures ReadText(Doubled(v) + "'" + rest) == Some((v, rest))
    decreases |v|
  {
    var s := Doubled(v) + "'" + rest;
    if v == "" {
      assert s == "'" + rest && s[1..] == rest;
    } else {
      TextRead(v[1..], rest);
      var tail := Doubled(v[1..]) + "'" + rest;
      assert [v[0]] + v[1..] == v;
      if v[0] == '\'' {
        assert s == "''" + tail && s[2..] == tail;
      } else {
        assert s == [v[0]] + tail && s[1..] == tail;
      }
    }
  }

  lemma {:induction false} TokenRead(t: string, rest: string)
    requires EndsCell(rest) && forall i :: 0 <= i < |t| ==> t[i] != ',' && t[i] != ')'
    ensures ReadToken(t + rest) == (t, rest)
    decreases |t|
  {
    if t == "" {
      assert t + rest == rest;
    } else {
      TokenRead(t[1..], rest);
      assert (t + rest)[1..] == t[1..] + rest;
      assert [t[0]] + t[1..] == t;
    }
  }

  lemma TokenReadsAs(t: string)
    requires PlainToken(t)
    ensures ReadsAs(t, TokenValue(t))
  {
    hide TokenValue;
    forall rest | EndsCell(rest)
      ensures ReadLiteral(t + rest) == Some((TokenValue(t), rest))
    {
      assert forall i :: 0 <= i < |t| ==> t[i] in t;
      TokenRead(t, rest);
    }
    assert t[0] in t;
  }

  /** Dropping a leading plus sign keeps the number. */
  lemma IntLiteral(v: string)
    requires IsInt(v)
    ensures var t := if v[0] == '+' then v[1..] else v;
            PlainToken(t) && TokenValue(t) == Int(IntValue(v))
  {
    var d := Unsigned(v);
    var t := if v[0] == '+' then v[1..] else v;
    assert IsDigit(d[0]);
    assert Unsigned(t) == d;
    assert t[0] == '-' || IsDigit(t[0]);
    forall c | c in t
      ensures c != ',' && c != ')'
    {
      var i :| 0 <= i < |t| && t[i] == c;
      assert i > 0 ==> t[i] == d[i - (|t| - |d|)];
    }
  }

  /** Every literal reads back as the value its cell stands for. */
  lemma LiteralReadsAs(v: string, ty: Type, number: string -> string)
    requires CellOk(v, ty, number)
    ensures ReadsAs(Lit(v, ty, number), Stored(v, ty, number))
  {
    hide IsInt, IntValue, ReadToken, ReadText, Doubled, SignedDigits, ReadsAs;
    if v == "" {
      NullToken();
      TokenReadsAs("NULL");
    } else if ty == INT {
      IntLiteral(v);
      TokenReadsAs(Lit(v, ty, number));
    } else if ty == FLOAT {
      TokenReadsAs(number(v));
    } else {
      TextReadsAs(v);
    }
  }

  lemma NullToken()
    ensures PlainToken("NULL")
  {
  }

  lemma TextReadsAs(v: string)
    ensures ReadsAs("'" + Doubled(v) + "'", Text(v))
  {
    hide Doubled, ReadText, ReadToken;
    var t := "'" + Doubled(v) + "'";
    forall rest | EndsCell(rest)
      ensures ReadLiteral(t + rest) == Some((Text(v), rest))
    {
      var inner := Doubled(v) + "'" + rest;
      assert t + rest == "'" + inner && (t + rest)[1..] == inner;
      TextRead(v, rest);
    }
  }

  lemma {:induction false} CellsRead(lits: seq<string>, values: seq<Value>, rest: string)
    requires |lits| == |values| > 0 && forall i :: 0 <= i < |lits| ==> ReadsAs(lits[i], values[i])
    ensures ReadCells(Join(lits) + ")" + rest) == Some((values, rest))
    decreases |lits|
  {
    hide ReadLiteral;
    var s := Join(lits) + ")" + rest;
    if |lits| == 1 {
      assert s == lits[0] + (")" + rest);
      assert (")" + rest)[1..] == rest && values == [values[0]];
    } else {
      var tail := Join(lits[1..]) + ")" + rest;
      assert s == lits[0] + (", " + tail);
      assert EndsCell(", " + tail);
      assert (", " + tail)[..2] == ", " && (", " + tail)[2..] == tail;
      CellsRead(lits[1..], values[1..], rest);
      assert values == [values[0]] + values[1..];
    }
  }

  lemma TupleRead(row: seq<string>, types: seq<Type>, number: string -> string, rest: string)
    requires RowOk(row, types, number)
    ensures ReadTuple(Tuple(row, types, number) + rest) == Some((StoredRow(row, types, number), rest))
  {
    hide ReadCells, ReadLiteral, Lit, Stored, CellOk;
    var lits := seq(|types|, c requires 0 <= c < |types| => Lit(Cell(row, c), types[c], number));
    var values := StoredRow(row, types, number);
    var s := Tuple(row, types, number) + rest;
    if types == [] {
      assert s == "()" + rest && s[2..] == rest;
    } else {
      forall c | 0 <= c < |lits|
        ensures ReadsAs(lits[c], values[c])
      {
        LiteralReadsAs(Cell(row, c), types[c], number);
      }
      CellsRead(lits, values, rest);
      assert s == "(" + (Join(lits) + ")" + rest) && s[1..] == Join(lits) + ")" + rest;
      assert s[1] == lits[0][0];
    }
  }

  lemma {:induction false} TuplesRead(rows: seq<seq<string>>, types: seq<Type>, number: string -> string)
    requires RowsOk(rows, types, number) && rows != []
    ensures ReadTuples(Tuples(rows, types, number)) == Some(StoredRows(rows, types, number))
    decreases |rows|
  {
    hide ReadTuple, Tuple, StoredRow, RowOk;
    var parts := seq(|rows|, i requires 0 <= i < |rows| => Tuple(rows[i], types, number));
    var s := Join(parts);
    if |rows| == 1 {
      TupleRead(rows[0], types, number, "");
      assert parts[0] + "" == parts[0];
      assert StoredRows(rows, types, number) == [StoredRow(rows[0], types, number)];
    } else {
      var tail := Tuples(rows[1..], types, number);
      TuplesRead(rows[1..], types, number);
      assert parts[1..] == seq(|rows| - 1, i requires 0 <= i < |rows| - 1 => Tuple(rows[1..][i], types, number));
      assert s == parts[0] + (", " + tail);
      TupleRead(rows[0], types, number, ", " + tail);
      assert (", " + tail)[..2] == ", " && (", " + tail)[2..] == tail;
      assert StoredRows(rows, types, number) ==
             [StoredRow(rows[0], types, number)] + StoredRows(rows[1..], types, number);
    }
  }

  lemma InsertRead(plan: Plan, rows: seq<seq<string>>, number: string -> string)
    requires RowsOk(rows, plan.types, number) && rows != []
    ensures ReadInsert(Header(plan) + Tuples(rows, plan.types, number), Header(plan)) ==
            Some(StoredRows(rows, plan.types, number))
  {
    hide ReadTuples, Header, Tuples, StoredRows;
    var stmt := Header(plan) + Tuples(rows, plan.types, number);
    assert stmt[|Header(plan)|..] == Tuples(rows, plan.types, number);
    TuplesRead(rows, plan.types, number);
  }

  /**
   * The statements hold every planned row once and in order: the INSERTs decode to
   * the stored rows, and there is one for each started group of `CHUNK` rows.
   */
  method ToSql(plan: Plan, number: string -> string) returns (stmts: seq<string>)
    requires |plan.types| == |plan.columns| && RowsOk(plan.rows, plan.types, number)
    ensures |stmts| == 2 + (|plan.rows| + CHUNK - 1) / CHUNK
    ensures stmts[..2] == ["DROP TABLE IF EXISTS " + plan.table,
                           "CREATE TABLE " + plan.table + " (" + Columns(plan) + ")"]
    ensures ReadAll(stmts[2..], Header(plan)) == Some(StoredRows(plan.rows, plan.types, number))
    ensures forall k :: 2 <= k < |stmts| ==> stmts[k] == Chunk(plan, k - 2, number)
  {
    hide ReadAll, StoredRows, Header, Tuples, Columns, RowOk, Chunk;
    stmts := ["DROP TABLE IF EXISTS " + plan.table, "CREATE TABLE " + plan.table + " (" + Columns(plan) + ")"];
    var i, header := 0, Header(plan);
    ghost var opening := stmts;
    NothingRead(plan, number);
    assert Take(plan.rows, 0) == [] && stmts[2..] == [];
    while i < |plan.rows|
      invariant 0 <= i && i % CHUNK == 0 && |stmts| == 2 + i / CHUNK && i < |plan.rows| + CHUNK
      invariant stmts[..2] == opening
      invariant RowsOk(Take(plan.rows, i), plan.types, number)
      invariant ReadAll(stmts[2..], header) == Some(StoredRows(Take(plan.rows, i), plan.types, number))
      invariant forall k :: 2 <= k < |stmts| ==> stmts[k] == Chunk(plan, k - 2, number)
      decreases |plan.rows| + CHUNK - i
    {
      var slice := plan.rows[i..|Take(plan.rows, i + CHUNK)|];
      assert Take(plan.rows, i + CHUNK) == Take(plan.rows, i) + slice;
      Appended(plan, Take(plan.rows, i), slice, stmts[2..], number);
      var stmt := header + Tuples(slice, plan.types, number);
      ChunkIs(plan, i, number);
      assert (stmts + [stmt])[2..] == stmts[2..] + [stmt];
      stmts := stmts + [stmt];
      i := i + CHUNK;
    }
    assert Take(plan.rows, i) == plan.rows;
  }

  lemma NothingRead(plan: Plan, number: string -> string)
    ensures ReadAll([], Header(plan)) == Some(StoredRows([], plan.types, number))
  {
    assert StoredRows([], plan.types, number) == [];
  }

  lemma ChunkIs(plan: Plan, i: nat, number: string -> string)
    requires i % CHUNK == 0 && i < |plan.rows|
    ensures Chunk(plan, i / CHUNK, number) ==
            Header(plan) + Tuples(plan.rows[i..|Take(plan.rows, i + CHUNK)|], plan.types, number)
  {
    assert CHUNK * (i / CHUNK) == i;
  }

  /** The first `n` rows, or all of them. */
  function Take(rows: seq<seq<string>>, n: nat): seq<seq<string>> {
    if n < |rows| then rows[..n] else rows
  }

  /** The INSERT for group `k`. */
  function Chunk(plan: Plan, k: nat, number: string -> string): string {
    var hi := |Take(plan.rows, CHUNK * k + CHUNK)|;
    Header(plan) + Tuples(if CHUNK * k <= hi then plan.rows[CHUNK * k..hi] else [], plan.types, number)
  }

  lemma Appended(plan: Plan, done: seq<seq<string>>, slice: seq<seq<string>>, inserts: seq<string>, number: string -> string)
    requires RowsOk(done, plan.types, number) && RowsOk(slice, plan.types, number) && slice != []
    requires ReadAll(inserts, Header(plan)) == Some(StoredRows(done, plan.types, number))
    ensures RowsOk(done + slice, plan.types, number)
    ensures ReadAll(inserts + [Header(plan) + Tuples(slice, plan.types, number)], Header(plan)) ==
            Some(StoredRows(done + slice, plan.types, number))
  {
    hide ReadInsert, Header, Tuples, RowOk, StoredRow;
    InsertRead(plan, slice, number);
    var now := inserts + [Header(plan) + Tuples(slice, plan.types, number)];
    assert now[..|now| - 1] == inserts;
    assert StoredRows(done + slice, plan.types, number) ==
           StoredRows(done, plan.types, number) + StoredRows(slice, plan.types, number);
  }
}
