/**
 * Incremental blob handles as values: a handle remembers the row it was opened
 * on, every operation re-reads the row and compares, and a write goes back as an
 * UPDATE guarded on the remembered row. Rows may change at any time, including
 * between the comparison and the UPDATE.
 */
module BlobHandles {
  import opened Options

  type Byte = b: int | 0 <= b < 256

  datatype Value = Null | Int(n: int) | Float(bits: int) | Text(bytes: seq<Byte>) | Blob(bytes: seq<Byte>)

  type Row = seq<Value>

  datatype Key = Key(table: string, rowid: int)

  type Rows = map<Key, Row>

  datatype Handle = Handle(key: Key, col: nat, readonly: bool, size: nat, snapshot: Row, aborted: bool)

  datatype State = State(rows: Rows, handles: map<nat, Handle>)

  datatype Code = OK | ERROR | ABORT | READONLY | MISUSE | DB_ERROR

  // ---- values -------------------------------------------------------------

  predicate HasPayload(v: Value) { v.Text? || v.Blob? }

  function Payload(v: Value): seq<Byte> {
    if HasPayload(v) then v.bytes else []
  }

  predicate Continues(b: Byte) { 0x80 <= b < 0xC0 }

  /** Section 4 of RFC 3629. */
  predicate IsUtf8(s: seq<Byte>)
    decreases |s|
  {
    || s == []
    || (s[0] < 0x80 && IsUtf8(s[1..]))
    || (|s| > 1 && 0xC2 <= s[0] < 0xE0 && Continues(s[1]) && IsUtf8(s[2..]))
    || (|s| > 2 && 0xE0 <= s[0] < 0xF0 && Continues(s[1]) && Continues(s[2])
        && (s[0] == 0xE0 ==> s[1] >= 0xA0) && (s[0] == 0xED ==> s[1] < 0xA0) && IsUtf8(s[3..]))
    || (|s| > 3 && 0xF0 <= s[0] < 0xF5 && Continues(s[1]) && Continues(s[2]) && Continues(s[3])
        && (s[0] == 0xF0 ==> s[1] >= 0x90) && (s[0] == 0xF4 ==> s[1] < 0x90) && IsUtf8(s[4..]))
  }

  /** The bytes with `data` laid over them from `off` on. */
  function Patched(bytes: seq<Byte>, off: nat, data: seq<Byte>): (r: seq<Byte>)
    requires off + |data| <= |bytes|
    ensures |r| == |bytes|
    ensures forall i :: 0 <= i < |r| ==> r[i] == if off <= i < off + |data| then data[i - off] else bytes[i]
  {
    bytes[..off] + data + bytes[off + |data|..]
  }

  /** A value of the same kind with other bytes; text must stay UTF-8. */
  function Revalued(v: Value, bytes: seq<Byte>): Option<Value> {
    if v.Text? then (if IsUtf8(bytes) then Some(Text(bytes)) else None) else Some(Blob(bytes))
  }

  // ---- operations ---------------------------------------------------------

  /** A handle's size is the payload length of the column it remembers. */
  predicate Sized(h: Handle) {
    h.col < |h.snapshot| && HasPayload(h.snapshot[h.col]) && h.size == |h.snapshot[h.col].bytes|
  }

  predicate Valid(s: State) {
    forall id :: id in s.handles ==> Sized(s.handles[id])
  }

  predicate Current(rows: Rows, h: Handle) {
    h.key in rows && rows[h.key] == h.snapshot
  }

  predicate InBounds(h: Handle, n: int, off: int) {
    0 <= n && 0 <= off && off + n <= h.size
  }

  function Aborted(s: State, id: nat): State
    requires id in s.handles
  {
    s.(handles := s.handles[id := s.handles[id].(aborted := true)])
  }

  /** `refused` is the answer of the checks made before the row is looked for, if they fail. */
  function Opened(s: State, id: nat, key: Key, col: nat, write: bool, refused: Option<Code>): (State, Code) {
    if refused.Some? then (s, refused.value)
    else if key !in s.rows || col >= |s.rows[key]| || !HasPayload(s.rows[key][col]) then (s, ERROR)
    else
      var row := s.rows[key];
      (s.(handles := s.handles[id := Handle(key, col, !write, |row[col].bytes|, row, false)]), OK)
  }

  function ReadOut(s: State, id: nat, n: int, off: int, buffer: bool, fails: bool): (r: (State, Code, seq<Byte>))
    requires Valid(s) && id in s.handles
  {
    var h := s.handles[id];
    if !InBounds(h, n, off) then (s, ERROR, [])
    else if h.aborted then (s, ABORT, [])
    else if !buffer then (s, MISUSE, [])
    else if fails then (s, DB_ERROR, [])
    else if !Current(s.rows, h) then (Aborted(s, id), ABORT, [])
    else (s, OK, s.rows[h.key][h.col].bytes[off..off + n])
  }

  /** What happens around a write: failures, and the database the UPDATE meets. */
  datatype Around = Around(fetchFails: bool, columns: nat, rows: Rows, updateFails: bool)

  /** A sibling that remembered the row as it was before a write remembers it as it is after. */
  function Refreshed(sib: Handle, key: Key, before: Row, after: Row): Handle {
    if !sib.aborted && sib.key == key && sib.snapshot == before then sib.(snapshot := after) else sib
  }

  function AllRefreshed(handles: map<nat, Handle>, key: Key, before: Row, after: Row): map<nat, Handle> {
    map id | id in handles :: Refreshed(handles[id], key, before, after)
  }

  function Written(s: State, id: nat, n: int, data: Option<seq<Byte>>, off: int, around: Around): (r: (State, Code))
    requires Valid(s) && id in s.handles
    requires data.Some? ==> |data.value| >= n
  {
    var h := s.handles[id];
    if !InBounds(h, n, off) then (s, ERROR)
    else if h.aborted then (s, ABORT)
    else if h.readonly then (s, READONLY)
    else if data.None? && n > 0 then (s, MISUSE)
    else if around.fetchFails then (s, DB_ERROR)
    else if !Current(s.rows, h) then (Aborted(s, id), ABORT)
    else
      var row := s.rows[h.key];
      var value := Revalued(row[h.col], Patched(row[h.col].bytes, off, if n == 0 then [] else data.value[..n]));
      if value.None? then (s, ERROR)
      else Updated(s, id, value.value, around)
  }

  /** The guarded UPDATE: it finds the row only where every column is as remembered. */
  function Updated(s: State, id: nat, value: Value, around: Around): (State, Code)
    requires Valid(s) && id in s.handles && Current(s.rows, s.handles[id])
  {
    var h := s.handles[id];
    var row := s.rows[h.key];
    var moved := s.(rows := around.rows);
    if around.columns != |row| then (Aborted(moved, id), ABORT)
    else if around.updateFails then (moved, DB_ERROR)
    else if !Current(around.rows, h) then (Aborted(moved, id), ABORT)
    else
      var after := row[h.col := value];
      (State(around.rows[h.key := after], AllRefreshed(s.handles, h.key, row, after)), OK)
  }

  function Reopened(s: State, id: nat, rowid: int, fails: bool): (State, Code)
    requires id in s.handles
  {
    var h := s.handles[id];
    var key := h.key.(rowid := rowid);
    if h.aborted then (s, ABORT)
    else if fails then (s, DB_ERROR)
    else if key !in s.rows || h.col >= |s.rows[key]| || !HasPayload(s.rows[key][h.col]) then (Aborted(s, id), ERROR)
    else
      var row := s.rows[key];
      (s.(handles := s.handles[id := h.(size := |row[h.col].bytes|, key := key, snapshot := row)]), OK)
  }

  function Bytes(h: Handle): nat {
    if h.aborted then 0 else h.size
  }

  // ---- runs ---------------------------------------------------------------

  datatype Step =
    | Open(id: nat, key: Key, col: nat, write: bool, refused: Option<Code>)
    | Read(id: nat, n: int, off: int, buffer: bool, fails: bool)
    | Write(id: nat, n: int, data: Option<seq<Byte>>, off: int, around: Around)
    | Reopen(id: nat, rowid: int, fails: bool)
    | Close(id: nat)
    | Foreign(rows: Rows)

  /** Handles are used between open and close, and a fresh one has its own identity. */
  predicate Enabled(s: State, step: Step) {
    match step
    case Open(id, _, _, _, refused) => id !in s.handles && refused != Some(OK)
    case Write(id, n, data, _, _) => id in s.handles && (data.Some? ==> |data.value| >= n)
    case Read(id, _, _, _, _) => id in s.handles
    case Reopen(id, _, _) => id in s.handles
    case Close(id) => id in s.handles
    case Foreign(_) => true
  }

  function Next(s: State, step: Step): State
    requires Valid(s) && Enabled(s, step)
  {
    match step
    case Open(id, key, col, write, refused) => Opened(s, id, key, col, write, refused).0
    case Read(id, n, off, buffer, fails) => ReadOut(s, id, n, off, buffer, fails).0
    case Write(id, n, data, off, around) => Written(s, id, n, data, off, around).0
    case Reopen(id, rowid, fails) => Reopened(s, id, rowid, fails).0
    case Close(id) => s.(handles := s.handles - {id})
    case Foreign(rows) => s.(rows := rows)
  }

  /** Every size stays the payload length of what is remembered. */
  lemma ValidStep(s: State, step: Step)
    requires Valid(s) && Enabled(s, step)
    ensures Valid(Next(s, step))
  {
    hide IsUtf8;
    if step.Write? {
      var s' := Next(s, step);
      forall id | id in s'.handles
        ensures Sized(s'.handles[id])
      {
        assert Sized(s.handles[id]) && Sized(s.handles[step.id]);
      }
    }
  }

  predicate IsRun(s: State, steps: seq<Step>)
    requires Valid(s)
    decreases |steps|
  {
    steps != [] ==>
      Enabled(s, steps[0]) && (ValidStep(s, steps[0]); IsRun(Next(s, steps[0]), steps[1..]))
  }

  function Final(s: State, steps: seq<Step>): (r: State)
    requires Valid(s) && IsRun(s, steps)
    ensures Valid(r)
    decreases |steps|
  {
    if steps == [] then s else (ValidStep(s, steps[0]); Final(Next(s, steps[0]), steps[1..]))
  }

  // ---- one write ----------------------------------------------------------

  /** The rows differ in one column of one row, and there in the bytes from `off` on. */
  ghost predicate Spliced(before: Rows, after: Rows, key: Key, col: nat, off: int, data: seq<Byte>) {
    && key in before && col < |before[key]| && HasPayload(before[key][col])
    && after.Keys == before.Keys
    && (forall k :: k in before && k != key ==> after[k] == before[k])
    && |after[key]| == |before[key]|
    && (forall c :: 0 <= c < |after[key]| && c != col ==> after[key][c] == before[key][c])
    && SplicedValue(before[key][col], after[key][col], off, data)
  }

  ghost predicate SplicedValue(v: Value, w: Value, off: int, data: seq<Byte>)
    requires HasPayload(v)
  {
    && (w.Text? <==> v.Text?) && (w.Blob? <==> v.Blob?)
    && (w.Text? ==> IsUtf8(w.bytes))
    && |w.bytes| == |v.bytes|
    && forall i :: 0 <= i < |w.bytes| ==>
         w.bytes[i] == if off <= i < off + |data| then data[i - off] else v.bytes[i]
  }

  function DataOf(n: int, data: Option<seq<Byte>>): seq<Byte>
    requires n > 0 && data.Some? ==> |data.value| >= n
  {
    if n <= 0 || data.None? then [] else data.value[..n]
  }

  /**
   * Whatever happens between the re-read and the UPDATE, a write that answers OK
   * changes the row it met by exactly the splice, and met the row it had read; any
   * other answer leaves the database as the others made it.
   */
  lemma WriteIsSpliceOrNothing(s: State, id: nat, n: int, data: Option<seq<Byte>>, off: int, around: Around)
    requires Valid(s) && id in s.handles && (data.Some? ==> |data.value| >= n)
    ensures var h, r := s.handles[id], Written(s, id, n, data, off, around);
            && (r.1 == OK ==> && Current(s.rows, h) && Current(around.rows, h)
                              && Spliced(around.rows, r.0.rows, h.key, h.col, off, DataOf(n, data)))
            && (r.1 != OK ==> r.0.rows == s.rows || r.0.rows == around.rows)
  {
    hide IsUtf8;
    assert Sized(s.handles[id]);
  }

  lemma {:induction false} ModeStays(s: State, steps: seq<Step>, id: nat)
    requires Valid(s) && IsRun(s, steps) && id in s.handles && Close(id) !in steps
    ensures id in Final(s, steps).handles
    ensures Final(s, steps).handles[id].readonly == s.handles[id].readonly
    ensures Final(s, steps).handles[id].col == s.handles[id].col
    decreases |steps|
  {
    hide Next, Enabled;
    if steps != [] {
      ValidStep(s, steps[0]);
      ModeStep(s, steps[0], id);
      ModeStays(Next(s, steps[0]), steps[1..], id);
    }
  }

  lemma ModeStep(s: State, step: Step, id: nat)
    requires Valid(s) && Enabled(s, step) && id in s.handles && step != Close(id)
    ensures id in Next(s, step).handles
    ensures Next(s, step).handles[id].readonly == s.handles[id].readonly && Next(s, step).handles[id].col == s.handles[id].col
  {
    hide IsUtf8;
  }

  /**
   * An open takes the row as it is. Over every run after it, through reopens and whatever others do,
   * the way it was opened decides its writes: one opened for reading never changes anything, and a
   * live one opened for writing is never refused for being read-only.
   */
  lemma OpenDecidesWriting(s: State, id: nat, key: Key, col: nat, write: bool, steps: seq<Step>,
                           n: int, data: Option<seq<Byte>>, off: int, around: Around)
    requires Valid(s) && id !in s.handles && Opened(s, id, key, col, write, None).1 == OK
    requires Valid(Opened(s, id, key, col, write, None).0) && IsRun(Opened(s, id, key, col, write, None).0, steps)
    requires Close(id) !in steps && (data.Some? ==> |data.value| >= n)
    ensures var t := Opened(s, id, key, col, write, None).0;
            var u := Final(t, steps);
            && t.rows == s.rows && Current(t.rows, t.handles[id])
            && id in u.handles && u.handles[id].col == col
            && (!write ==> Written(u, id, n, data, off, around).0 == u)
            && (Written(u, id, n, data, off, around).1 == READONLY <==>
                !write && InBounds(u.handles[id], n, off) && !u.handles[id].aborted)
  {
    hide IsUtf8;
    ModeStays(Opened(s, id, key, col, write, None).0, steps, id);
  }

  /** A read within bounds returns the bytes asked for when the row is the one remembered. */
  lemma CurrentIsRead(s: State, id: nat, n: int, off: int)
    requires Valid(s) && id in s.handles && !s.handles[id].aborted && InBounds(s.handles[id], n, off)
    requires Current(s.rows, s.handles[id])
    ensures var r := ReadOut(s, id, n, off, true, false); r.1 == OK && |r.2| == n
  {
    assert Sized(s.handles[id]);
  }

  // ---- how a handle dies --------------------------------------------------

  /** The splice would leave a value of the same kind. */
  predicate FitsKind(h: Handle, n: int, data: Option<seq<Byte>>, off: int)
    requires Sized(h) && InBounds(h, n, off) && (data.Some? ==> |data.value| >= n)
  {
    h.snapshot[h.col].Text? ==> IsUtf8(Patched(h.snapshot[h.col].bytes, off, DataOf(n, data)))
  }

  /** Handle `h` gets to look at its row and finds another: when it reads it, when its UPDATE meets it,
      or when it moves to a row it cannot serve. */
  predicate Kills(s: State, h: Handle, step: Step)
    requires Sized(h) && (step.Write? && step.data.Some? ==> |step.data.value| >= step.n)
  {
    match step
    case Read(_, n, off, buffer, fails) => InBounds(h, n, off) && buffer && !fails && !Current(s.rows, h)
    case Write(_, n, data, off, around) =>
      && InBounds(h, n, off) && !h.readonly && (data.Some? || n == 0) && !around.fetchFails
      && (Current(s.rows, h) ==>
            && FitsKind(h, n, data, off)
            && (around.columns == |h.snapshot| ==> !around.updateFails && !Current(around.rows, h)))
    case Reopen(_, rowid, fails) =>
      var key := h.key.(rowid := rowid);
      !fails && !(key in s.rows && h.col < |s.rows[key]| && HasPayload(s.rows[key][h.col]))
    case _ => false
  }

  predicate Uses(step: Step, id: nat) {
    (step.Read? || step.Write? || step.Reopen?) && step.id == id
  }

  lemma DiesIff(s: State, step: Step, id: nat)
    requires Valid(s) && Enabled(s, step) && id in s.handles && !s.handles[id].aborted && step != Close(id)
    ensures id in Next(s, step).handles && Sized(s.handles[id])
    ensures Next(s, step).handles[id].aborted <==> Uses(step, id) && Kills(s, s.handles[id], step)
  {
    hide IsUtf8;
    assert Sized(s.handles[id]);
  }

  /** Some step of the run kills the handle. */
  predicate Killed(s: State, steps: seq<Step>, id: nat)
    requires Valid(s) && IsRun(s, steps) && id in s.handles
    decreases |steps|
  {
    steps != [] && steps[0] != Close(id) &&
      (ValidStep(s, steps[0]);
       || (Uses(steps[0], id) && Kills(s, s.handles[id], steps[0]))
       || (id in Next(s, steps[0]).handles && Killed(Next(s, steps[0]), steps[1..], id)))
  }

  /** Over every run a handle is dead at the end exactly when one of its own operations found its row
      changed: nothing another handle or another connection does kills it, and nothing revives it. */
  lemma {:induction false} DeadIffKilled(s: State, steps: seq<Step>, id: nat)
    requires Valid(s) && IsRun(s, steps) && id in s.handles && !s.handles[id].aborted
    requires Close(id) !in steps
    ensures id in Final(s, steps).handles
    ensures Final(s, steps).handles[id].aborted <==> Killed(s, steps, id)
    decreases |steps|
  {
    hide Kills, IsUtf8, Next, Enabled;
    if steps != [] {
      ValidStep(s, steps[0]);
      assert steps[0] != Close(id);
      DiesIff(s, steps[0], id);
      var t := Next(s, steps[0]);
      if t.handles[id].aborted {
        AbortedForever(t, steps[1..], id);
      } else {
        DeadIffKilled(t, steps[1..], id);
      }
    }
  }

  /** A dead handle answers nothing but errors, changes nothing and reports no bytes. */
  ghost predicate Dead(s: State, id: nat)
    requires Valid(s)
  {
    && id in s.handles && Bytes(s.handles[id]) == 0
    && (forall step :: Enabled(s, step) && Uses(step, id) ==> Refuses(s, step))
  }

  ghost predicate Refuses(s: State, step: Step)
    requires Valid(s) && Enabled(s, step)
  {
    && Next(s, step) == s
    && match step
       case Read(id, n, off, buffer, fails) =>
         ReadOut(s, id, n, off, buffer, fails).1 == if InBounds(s.handles[id], n, off) then ABORT else ERROR
       case Write(id, n, data, off, around) =>
         Written(s, id, n, data, off, around).1 == if InBounds(s.handles[id], n, off) then ABORT else ERROR
       case Reopen(id, rowid, fails) => Reopened(s, id, rowid, fails).1 == ABORT
       case _ => true
  }

  lemma AbortedIsDead(s: State, id: nat)
    requires Valid(s) && id in s.handles && s.handles[id].aborted
    ensures Dead(s, id)
  {
    hide IsUtf8;
  }

  /** Over every run a dead handle stays dead, whatever is asked of it. */
  lemma {:induction false} AbortedForever(s: State, steps: seq<Step>, id: nat)
    requires Valid(s) && IsRun(s, steps) && id in s.handles && s.handles[id].aborted
    requires Close(id) !in steps
    ensures id in Final(s, steps).handles && Final(s, steps).handles[id].aborted
    ensures Dead(Final(s, steps), id)
    decreases |steps|
  {
    hide IsUtf8, Dead;
    if steps != [] {
      ValidStep(s, steps[0]);
      assert steps[0] != Close(id);
      AbortedForever(Next(s, steps[0]), steps[1..], id);
    } else {
      AbortedIsDead(s, id);
    }
  }

  // ---- a row that only blob handles change --------------------------------

  predicate SameAt(a: Rows, b: Rows, k: Key) {
    (k in a <==> k in b) && (k in a ==> a[k] == b[k])
  }

  /** The step leaves row `k`, and the columns of its table, to the handles. */
  predicate Quiet(s: State, step: Step, k: Key) {
    match step
    case Foreign(rows) => SameAt(rows, s.rows, k)
    case Write(id, _, _, _, around) =>
      && SameAt(around.rows, s.rows, k)
      && (id in s.handles && s.handles[id].key == k && k in s.rows ==> around.columns == |s.rows[k]|)
    case _ => true
  }

  predicate QuietRun(s: State, steps: seq<Step>, k: Key)
    requires Valid(s) && IsRun(s, steps)
    decreases |steps|
  {
    steps != [] ==>
      Quiet(s, steps[0], k) && (ValidStep(s, steps[0]); QuietRun(Next(s, steps[0]), steps[1..], k))
  }

  predicate LiveOn(s: State, id: nat, k: Key) {
    id in s.handles && s.handles[id].key == k && !s.handles[id].aborted
  }

  /** Every live handle on row `k` remembers the row as it is. */
  ghost predicate InStep(s: State, k: Key) {
    forall id :: LiveOn(s, id, k) ==> Current(s.rows, s.handles[id])
  }

  lemma QuietWrite(s: State, step: Step, k: Key)
    requires step.Write? && Valid(s) && Enabled(s, step) && Quiet(s, step, k) && InStep(s, k)
    ensures InStep(Next(s, step), k) && forall id :: LiveOn(s, id, k) ==> LiveOn(Next(s, step), id, k)
  {
    hide IsUtf8, Revalued, Patched, Sized;
    var t := Next(s, step);
    forall id | id in s.handles && s.handles[id].key == k && !s.handles[id].aborted
      ensures LiveOn(t, id, k) && Current(t.rows, t.handles[id])
    {
      assert LiveOn(s, id, k);
      assert Current(s.rows, s.handles[id]);
    }
  }

  lemma QuietOther(s: State, step: Step, k: Key)
    requires !step.Write? && Valid(s) && Enabled(s, step) && Quiet(s, step, k) && InStep(s, k)
    ensures InStep(Next(s, step), k)
  {
    hide IsUtf8, Sized;
    var t := Next(s, step);
    forall id | LiveOn(t, id, k)
      ensures Current(t.rows, t.handles[id])
    {
      assert LiveOn(s, id, k) ==> Current(s.rows, s.handles[id]);
    }
  }

  lemma QuietOtherLives(s: State, step: Step, k: Key, id: nat)
    requires !step.Write? && Valid(s) && Enabled(s, step) && InStep(s, k) && LiveOn(s, id, k)
    ensures LiveOn(Next(s, step), id, k) || step == Close(id) || (step.Reopen? && step.id == id)
  {
    hide IsUtf8, Sized;
    assert Current(s.rows, s.handles[id]);
  }

  /** No handle on the row expires: it dies only by its own failed reopen. */
  lemma QuietStep(s: State, step: Step, k: Key)
    requires Valid(s) && Enabled(s, step) && Quiet(s, step, k) && InStep(s, k)
    ensures InStep(Next(s, step), k)
    ensures forall id :: LiveOn(s, id, k) ==>
              LiveOn(Next(s, step), id, k) || step == Close(id) || (step.Reopen? && step.id == id)
  {
    if step.Write? {
      QuietWrite(s, step, k);
    } else {
      QuietOther(s, step, k);
      forall id | LiveOn(s, id, k)
        ensures LiveOn(Next(s, step), id, k) || step == Close(id) || (step.Reopen? && step.id == id)
      {
        QuietOtherLives(s, step, k, id);
      }
    }
    hide Next, Enabled, Quiet, InStep, LiveOn;
  }

  lemma {:induction false} QuietRunKeepsStep(s: State, steps: seq<Step>, k: Key)
    requires Valid(s) && IsRun(s, steps) && QuietRun(s, steps, k) && InStep(s, k)
    ensures InStep(Final(s, steps), k)
    decreases |steps|
  {
    hide Quiet, Next, Enabled, InStep;
    if steps != [] {
      ValidStep(s, steps[0]);
      QuietStep(s, steps[0], k);
      QuietRunKeepsStep(Next(s, steps[0]), steps[1..], k);
    }
  }

  predicate LeavesAlone(steps: seq<Step>, id: nat) {
    forall i :: 0 <= i < |steps| ==> steps[i] != Close(id) && !(steps[i].Reopen? && steps[i].id == id)
  }

  /** On a row that only handles change, a handle lives until its owner closes or moves it. */
  lemma {:induction false} NeverExpires(s: State, steps: seq<Step>, k: Key, id: nat)
    requires Valid(s) && IsRun(s, steps) && QuietRun(s, steps, k) && InStep(s, k)
    requires LiveOn(s, id, k) && LeavesAlone(steps, id)
    ensures LiveOn(Final(s, steps), id, k)
    decreases |steps|
  {
    hide Quiet, Next, Enabled, InStep, LiveOn;
    if steps != [] {
      ValidStep(s, steps[0]);
      QuietStep(s, steps[0], k);
      NeverExpires(Next(s, steps[0]), steps[1..], k, id);
    }
  }

  /** There a write in bounds through a live writable handle fails only by spoiling a text. */
  lemma WritesSucceed(s: State, id: nat, k: Key, n: int, data: seq<Byte>, off: int, around: Around)
    requires Valid(s) && InStep(s, k) && LiveOn(s, id, k) && |data| == n
    requires InBounds(s.handles[id], n, off) && !s.handles[id].readonly
    requires Quiet(s, Write(id, n, Some(data), off, around), k) && !around.fetchFails && !around.updateFails
    ensures var h, r := s.handles[id], Written(s, id, n, Some(data), off, around);
            && h.key in s.rows && h.col < |s.rows[k]| && HasPayload(s.rows[k][h.col])
            && off + n <= |s.rows[k][h.col].bytes|
            && r.1 == (if s.rows[k][h.col].Text? && !IsUtf8(Patched(s.rows[k][h.col].bytes, off, data)) then ERROR else OK)
  {
    hide IsUtf8, Patched, AllRefreshed;
    LiveIsSized(s, id);
    assert Current(s.rows, s.handles[id]);
    assert data[..n] == data && (n == 0 ==> data == []);
  }

  // ---- all handles of the row share its bytes -----------------------------

  /** A write that answered OK and laid a byte over position `p` of column `c`. */
  predicate Covers(s: State, step: Step, k: Key, c: nat, p: nat)
    requires Valid(s) && Enabled(s, step)
  {
    && step.Write? && s.handles[step.id].key == k && s.handles[step.id].col == c
    && step.off <= p < step.off + step.n
    && Written(s, step.id, step.n, step.data, step.off, step.around).1 == OK
  }

  /** The byte last laid over a position by any handle of the row, or the byte found there at first. */
  function Latest(s: State, steps: seq<Step>, k: Key, c: nat, p: nat, first: Byte): Byte
    requires Valid(s) && IsRun(s, steps)
    decreases |steps|
  {
    if steps == [] then first
    else
      var b := if Covers(s, steps[0], k, c, p) then steps[0].data.value[p - steps[0].off] else first;
      ValidStep(s, steps[0]);
      Latest(Next(s, steps[0]), steps[1..], k, c, p, b)
  }

  ghost predicate HasByte(s: State, k: Key, c: nat, p: nat) {
    k in s.rows && c < |s.rows[k]| && p < |Payload(s.rows[k][c])|
  }

  lemma ByteStep(s: State, step: Step, k: Key, c: nat, p: nat)
    requires Valid(s) && Enabled(s, step) && Quiet(s, step, k)
    ensures var t := Next(s, step);
            && (HasByte(t, k, c, p) <==> HasByte(s, k, c, p))
            && (HasByte(s, k, c, p) ==>
                  Payload(t.rows[k][c])[p] ==
                  if Covers(s, step, k, c, p) then step.data.value[p - step.off] else Payload(s.rows[k][c])[p])
  {
    hide IsUtf8, Revalued, Patched, Updated, Written, Valid, ReadOut, Opened, Reopened;
    if step.Write? {
      WriteIsSpliceOrNothing(s, step.id, step.n, step.data, step.off, step.around);
      if Written(s, step.id, step.n, step.data, step.off, step.around).1 == OK {
        WriteAnswers(s, step.id, step.n, step.data, step.off, step.around);
      }
    } else {
      OtherStepsKeepRows(s, step);
    }
  }

  lemma WriteAnswers(s: State, id: nat, n: int, data: Option<seq<Byte>>, off: int, around: Around)
    requires Valid(s) && id in s.handles && (data.Some? ==> |data.value| >= n)
    requires Written(s, id, n, data, off, around).1 == OK
    ensures InBounds(s.handles[id], n, off) && (n > 0 ==> data.Some?)
  {
    hide IsUtf8;
  }

  lemma OtherStepsKeepRows(s: State, step: Step)
    requires Valid(s) && Enabled(s, step) && !step.Write?
    ensures Next(s, step).rows == if step.Foreign? then step.rows else s.rows
  {
  }

  lemma {:induction false} BytesAreLatest(s: State, steps: seq<Step>, k: Key, c: nat, p: nat)
    requires Valid(s) && IsRun(s, steps) && QuietRun(s, steps, k)
    ensures HasByte(Final(s, steps), k, c, p) <==> HasByte(s, k, c, p)
    ensures HasByte(s, k, c, p) ==>
              Payload(Final(s, steps).rows[k][c])[p] == Latest(s, steps, k, c, p, Payload(s.rows[k][c])[p])
    decreases |steps|
  {
    hide Quiet, Next, Enabled, Covers;
    if steps != [] {
      ValidStep(s, steps[0]);
      ByteStep(s, steps[0], k, c, p);
      BytesAreLatest(Next(s, steps[0]), steps[1..], k, c, p);
    }
  }

  /**
   * After any run that leaves a row to its handles, a read through any of them
   * succeeds and returns, byte for byte, what was last written there by any handle.
   */
  lemma ReadsReturnLatestBytes(s: State, steps: seq<Step>, k: Key, id: nat, n: int, off: int)
    requires Valid(s) && IsRun(s, steps) && QuietRun(s, steps, k) && InStep(s, k)
    requires LiveOn(Final(s, steps), id, k) && InBounds(Final(s, steps).handles[id], n, off)
    ensures var h, r := Final(s, steps).handles[id], ReadOut(Final(s, steps), id, n, off, true, false);
            && r.1 == OK && |r.2| == n
            && forall p :: off <= p < off + n ==>
                 && HasByte(s, k, h.col, p)
                 && r.2[p - off] == Latest(s, steps, k, h.col, p, Payload(s.rows[k][h.col])[p])
  {
    hide Valid, IsRun, QuietRun, Latest, Final;
    var t := Final(s, steps);
    var h := t.handles[id];
    QuietRunKeepsStep(s, steps, k);
    CurrentIsRead(t, id, n, off);
    assert Sized(h) by { LiveIsSized(t, id); }
    var bytes := ReadOut(t, id, n, off, true, false).2;
    forall p | off <= p < off + n
      ensures HasByte(s, k, h.col, p) && bytes[p - off] == Latest(s, steps, k, h.col, p, Payload(s.rows[k][h.col])[p])
    {
      BytesAreLatest(s, steps, k, h.col, p);
      assert bytes[p - off] == Payload(t.rows[k][h.col])[p];
    }
  }

  lemma LiveIsSized(s: State, id: nat)
    requires Valid(s) && id in s.handles
    ensures Sized(s.handles[id])
  {
  }
}
