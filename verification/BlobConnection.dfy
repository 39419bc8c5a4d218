/**
 * The blob interface as the shim implements it: handle objects that a connection
 * keeps a list of, with fields updated in place and siblings refreshed by a loop.
 * Every method is proved against the operation on values of the same kind.
 */
module BlobConnection {
  import opened Options
  import opened BlobHandles

  class BlobHandle {
    const id: nat
    const col: nat
    const readonly: bool
    var key: Key
    var size: nat
    var snapshot: Row
    var aborted: bool

    constructor (id: nat, key: Key, col: nat, readonly: bool, size: nat, snapshot: Row)
      ensures this.id == id && View() == Handle(key, col, readonly, size, snapshot, false)
    {
      this.id, this.col, this.readonly := id, col, readonly;
      this.key, this.size, this.snapshot, aborted := key, size, snapshot, false;
    }

    ghost function View(): Handle
      reads this
    {
      Handle(key, col, readonly, size, snapshot, aborted)
    }

    /** Move along with a write to the row this handle remembers. */
    method Follow(written: Key, before: Row, after: Row)
      modifies this
      ensures View() == Refreshed(old(View()), written, before, after)
    {
      if !aborted && key == written && snapshot == before {
        snapshot := after;
      }
    }
  }

  /** The identities of the handles in a list. */
  ghost function Ids(blobs: seq<BlobHandle>): set<nat> {
    if blobs == [] then {} else Ids(blobs[..|blobs| - 1]) + {blobs[|blobs| - 1].id}
  }

  ghost predicate Distinct(blobs: seq<BlobHandle>) {
    blobs != [] ==>
      Distinct(blobs[..|blobs| - 1]) && blobs[|blobs| - 1].id !in Ids(blobs[..|blobs| - 1])
  }

  lemma {:induction false} IdsAre(blobs: seq<BlobHandle>)
    ensures forall i :: 0 <= i < |blobs| ==> blobs[i].id in Ids(blobs)
  {
    if blobs != [] {
      IdsAre(blobs[..|blobs| - 1]);
    }
  }

  lemma {:induction false} Apart(blobs: seq<BlobHandle>)
    requires Distinct(blobs)
    ensures forall i, j :: 0 <= i < j < |blobs| ==> blobs[i].id != blobs[j].id
  {
    if blobs != [] {
      Apart(blobs[..|blobs| - 1]);
      IdsAre(blobs[..|blobs| - 1]);
    }
  }

  /** Taking one handle out of the list takes exactly its identity out. */
  lemma {:induction false} Removed(blobs: seq<BlobHandle>, i: nat)
    requires i < |blobs| && Distinct(blobs)
    ensures var rest := blobs[..i] + blobs[i + 1..];
            && Distinct(rest) && Ids(rest) == Ids(blobs) - {blobs[i].id}
            && forall j :: 0 <= j < |rest| ==> rest[j] == (if j < i then blobs[j] else blobs[j + 1]) && rest[j] != blobs[i]
  {
    var rest := blobs[..i] + blobs[i + 1..];
    var front, last := blobs[..|blobs| - 1], blobs[|blobs| - 1];
    IdsAre(front);
    if i == |front| {
      assert rest == front;
    } else {
      Removed(front, i);
      assert rest == front[..i] + front[i + 1..] + [last];
      assert rest[..|rest| - 1] == front[..i] + front[i + 1..];
    }
  }

  /** No payload changes its length. */
  ghost predicate SameSizes(before: Row, after: Row) {
    |after| == |before| && forall c :: 0 <= c < |before| && HasPayload(before[c]) ==>
      HasPayload(after[c]) && |after[c].bytes| == |before[c].bytes|
  }

  lemma RefreshKeepsSized(handles: map<nat, Handle>, key: Key, before: Row, after: Row)
    requires (forall id :: id in handles ==> Sized(handles[id])) && SameSizes(before, after)
    ensures var now := AllRefreshed(handles, key, before, after); forall id :: id in now ==> Sized(now[id])
  {
  }

  class Connection {
    /** The rows this connection sees. */
    var rows: Rows
    var blobs: seq<BlobHandle>
    ghost var model: State

    ghost predicate Valid()
      reads this, blobs
    {
      && BlobHandles.Valid(model) && model.rows == rows
      && Mirrors(blobs, model.handles)
      && Distinct(blobs) && model.handles.Keys == Ids(blobs)
    }

    /** The objects hold the values of the model. */
    static ghost predicate Mirrors(blobs: seq<BlobHandle>, handles: map<nat, Handle>)
      reads blobs
    {
      forall i :: 0 <= i < |blobs| ==> blobs[i].id in handles && handles[blobs[i].id] == blobs[i].View()
    }

    constructor (rows: Rows)
      ensures Valid() && blobs == [] && model == State(rows, map[])
    {
      this.rows, blobs, model := rows, [], State(rows, map[]);
    }

    /** Another connection, or SQL on this one, changes what is seen. */
    method Change(now: Rows)
      requires Valid()
      modifies this
      ensures Valid() && blobs == old(blobs) && model == Next(old(model), Foreign(now))
    {
      rows := now;
      model := model.(rows := now);
    }

    method Open(id: nat, key: Key, col: nat, write: bool, refused: Option<Code>) returns (b: Option<BlobHandle>, code: Code)
      requires Valid() && Enabled(model, Step.Open(id, key, col, write, refused))
      modifies this
      ensures Valid() && (model, code) == Opened(old(model), id, key, col, write, refused)
      ensures if code == OK then b.Some? && fresh(b.value) && blobs == old(blobs) + [b.value] else b.None? && blobs == old(blobs)
    {
      hide IsUtf8, Ids, Distinct;
      if refused.Some? {
        return None, refused.value;
      }
      if key !in rows || col >= |rows[key]| || !HasPayload(rows[key][col]) {
        return None, ERROR;
      }
      var row := rows[key];
      var h := new BlobHandle(id, key, col, !write, |row[col].bytes|, row);
      Add(h);
      return Some(h), OK;
    }

    method Add(h: BlobHandle)
      requires Valid() && h !in blobs && h.id !in model.handles && Sized(h.View())
      modifies this
      ensures Valid() && blobs == old(blobs) + [h] && rows == old(rows)
      ensures model == old(model).(handles := old(model).handles[h.id := h.View()])
    {
      hide IsUtf8, Sized;
      IdsAre(blobs);
      blobs := blobs + [h];
      model := model.(handles := model.handles[h.id := h.View()]);
      assert blobs[..|blobs| - 1] == old(blobs);
    }

    /** Re-read the row; a row that is gone or differs kills the handle. */
    method CheckCurrentRow(b: BlobHandle, fails: bool) returns (row: Row, code: Code)
      requires Valid() && b in blobs && !b.aborted
      modifies this`model, b
      ensures Valid()
      ensures code == if fails then DB_ERROR else if Current(rows, old(b.View())) then OK else ABORT
      ensures model == if code == ABORT then Aborted(old(model), b.id) else old(model)
      ensures code == OK ==> row == b.snapshot && Current(rows, b.View())
    {
      hide IsUtf8, Ids, Distinct, Sized, Mirrors;
      row := [];
      if fails {
        return row, DB_ERROR;
      }
      if b.key in rows && rows[b.key] == b.snapshot {
        return rows[b.key], OK;
      }
      Kill(b);
      return row, ABORT;
    }

    method Kill(b: BlobHandle)
      requires Valid() && b in blobs
      modifies this`model, b
      ensures Valid() && model == Aborted(old(model), b.id)
    {
      hide IsUtf8, Ids, Distinct;
      Apart(blobs);
      b.aborted := true;
      model := Aborted(model, b.id);
    }

    method Read(b: BlobHandle, n: int, off: int, buffer: bool, fails: bool) returns (code: Code, bytes: seq<Byte>)
      requires Valid() && b in blobs
      modifies this`model, b
      ensures Valid() && (model, code, bytes) == ReadOut(old(model), b.id, n, off, buffer, fails)
    {
      hide IsUtf8, Ids, Distinct;
      if n < 0 || off < 0 || off + n > b.size {
        return ERROR, [];
      }
      if b.aborted {
        return ABORT, [];
      }
      if !buffer {
        return MISUSE, [];
      }
      assert Sized(b.View());
      var row, checked := CheckCurrentRow(b, fails);
      if checked != OK {
        return checked, [];
      }
      return OK, row[b.col].bytes[off..off + n];
    }

    /** The bytes to store, or the refusal of a text that would stop being UTF-8. */
    method Patch(old_: Value, data: seq<Byte>, off: nat) returns (value: Option<Value>)
      requires HasPayload(old_) && off + |data| <= |old_.bytes|
      ensures value == Revalued(old_, Patched(old_.bytes, off, data))
    {
      var patched := old_.bytes[..off] + data + old_.bytes[off + |data|..];
      if old_.Text? && !IsUtf8(patched) {
        return None;
      }
      return Some(if old_.Text? then Text(patched) else Blob(patched));
    }

    method Write(b: BlobHandle, n: int, data: Option<seq<Byte>>, off: int, around: Around) returns (code: Code)
      requires Valid() && b in blobs && (data.Some? ==> |data.value| >= n)
      modifies this`rows, this`model, blobs
      ensures Valid() && (model, code) == Written(old(model), b.id, n, data, off, around)
    {
      hide IsUtf8, Ids, Distinct, Patched;
      if n < 0 || off < 0 || off + n > b.size {
        return ERROR;
      }
      if b.aborted {
        return ABORT;
      }
      if b.readonly {
        return READONLY;
      }
      if data.None? && n > 0 {
        return MISUSE;
      }
      assert Sized(b.View());
      var row, checked := CheckCurrentRow(b, around.fetchFails);
      if checked != OK {
        return checked;
      }
      var value := Patch(row[b.col], if n == 0 then [] else data.value[..n], off);
      if value.None? {
        return ERROR;
      }
      code := Update(b, value.value, around);
    }

    /** The UPDATE meets whatever rows are there by then. */
    method Update(b: BlobHandle, value: Value, around: Around) returns (code: Code)
      requires Valid() && b in blobs && Current(rows, b.View()) && !b.aborted
      requires HasPayload(value) && |value.bytes| == b.size
      modifies this`rows, this`model, blobs
      ensures Valid() && (model, code) == Updated(old(model), b.id, value, around)
    {
      hide IsUtf8, Ids, Distinct;
      var before := b.snapshot;
      rows := around.rows;
      model := model.(rows := rows);
      if around.columns != |before| {
        Kill(b);
        return ABORT;
      }
      if around.updateFails {
        return DB_ERROR;
      }
      if !(b.key in rows && rows[b.key] == before) {
        Kill(b);
        return ABORT;
      }
      var after := before[b.col := value];
      rows := rows[b.key := after];
      Refresh(b, before, after);
      return OK;
    }

    /** This handle and every live sibling that remembered the old row now remember the new one. */
    method Refresh(b: BlobHandle, before: Row, after: Row)
      requires BlobHandles.Valid(model) && Mirrors(blobs, model.handles)
      requires Distinct(blobs) && model.handles.Keys == Ids(blobs)
      requires b in blobs && !b.aborted && b.snapshot == before
      requires SameSizes(before, after)
      modifies this`model, blobs
      ensures Valid()
      ensures model == State(rows, AllRefreshed(old(model).handles, b.key, before, after))
    {
      hide IsUtf8, Ids, Distinct, Sized;
      Apart(blobs);
      RefreshKeepsSized(model.handles, b.key, before, after);
      RefreshSiblings(b, before, after);
      b.snapshot := after;
      model := State(rows, AllRefreshed(model.handles, b.key, before, after));
    }

    method RefreshSiblings(b: BlobHandle, before: Row, after: Row)
      requires forall i, j :: 0 <= i < j < |blobs| ==> blobs[i].id != blobs[j].id
      modifies blobs
      ensures b.View() == old(b.View())
      ensures forall j :: 0 <= j < |blobs| && blobs[j] != b ==>
                blobs[j].View() == Refreshed(old(blobs[j].View()), b.key, before, after)
    {
      hide Refreshed;
      for i := 0 to |blobs|
        invariant b.View() == old(b.View())
        invariant forall j :: 0 <= j < i && blobs[j] != b ==>
                    blobs[j].View() == Refreshed(old(blobs[j].View()), b.key, before, after)
        invariant forall j :: i <= j < |blobs| ==> blobs[j].View() == old(blobs[j].View())
      {
        if blobs[i] != b {
          blobs[i].Follow(b.key, before, after);
        }
      }
    }

    method Reopen(b: BlobHandle, rowid: int, fails: bool) returns (code: Code)
      requires Valid() && b in blobs
      modifies this`model, b
      ensures Valid() && (model, code) == Reopened(old(model), b.id, rowid, fails)
    {
      hide IsUtf8, Ids, Distinct;
      if b.aborted {
        return ABORT;
      }
      if fails {
        return DB_ERROR;
      }
      var key := b.key.(rowid := rowid);
      if key !in rows || b.col >= |rows[key]| || !HasPayload(rows[key][b.col]) {
        Kill(b);
        return ERROR;
      }
      var row := rows[key];
      Apart(blobs);
      b.size, b.key, b.snapshot := |row[b.col].bytes|, key, row;
      model := Reopened(model, b.id, rowid, fails).0;
      return OK;
    }

    method Close(b: BlobHandle)
      requires Valid() && b in blobs
      modifies this
      ensures Valid() && b !in blobs && model == Next(old(model), Step.Close(b.id))
    {
      hide IsUtf8, Sized;
      var i: nat :| i < |blobs| && blobs[i] == b;
      Removed(blobs, i);
      blobs := blobs[..i] + blobs[i + 1..];
      model := model.(handles := model.handles - {b.id});
      IdsAre(blobs);
    }
  }
}
