/**
 * Commits of several splices of several rows, as they are found in the ring. A commit
 * publishes one record for all its statements, and a statement that was undone or found no
 * row is recorded with the others.
 */
module RowCommits {
  import opened Options
  import opened SubEdit
  import opened EditBatch
  import opened CommitRecords
  import opened RecordTruth
  import opened RecordWalk
  import G = GuardRing

  /** A statement that spliced a row, at the offset it used; `landed` if it found the row and stayed. */
  datatype Write = Write(key: int, edit: Splice, landed: bool)

  /** A commit; one by a writer of another kind is not recorded. */
  datatype Commit = Commit(writes: seq<Write>, recorded: bool)

  /** The column all of this is about. Rows are known to the ring by the hash of their key. */
  datatype Sheet = Sheet(table: nat, col: nat, hash: int -> nat)

  function TouchOf(w: Write, sheet: Sheet): G.Touch {
    G.Touch(sheet.table, Some(sheet.hash(w.key)), Some({sheet.col}), Some((w.edit.at, End(w.edit))), None, Delta(w.edit))
  }

  predicate AnyLanded(writes: seq<Write>) {
    exists i :: 0 <= i < |writes| && writes[i].landed
  }

  /** What a commit records: all its statements, once one of them has touched a row. */
  function Touches(writes: seq<Write>, sheet: Sheet): seq<G.Touch> {
    if AnyLanded(writes) then seq(|writes|, i requires 0 <= i < |writes| => TouchOf(writes[i], sheet)) else []
  }

  /** What the commits left in the ring. */
  function HistoryOf(commits: seq<Commit>, sheet: Sheet): G.History {
    seq(|commits|, t requires 0 <= t < |commits| =>
      if commits[t].recorded then Some(G.FootprintOf(Touches(commits[t].writes, sheet))) else None)
  }

  function CellOf(key: int, sheet: Sheet, at: nat, len: nat): G.CellEdit {
    G.CellEdit(sheet.table, sheet.hash(key), sheet.col, at, len)
  }

  function Edits(writes: seq<Write>): seq<Splice> {
    seq(|writes|, i requires 0 <= i < |writes| => writes[i].edit)
  }

  /** What a commit did to one row. */
  function Own(writes: seq<Write>, key: int): seq<Splice> {
    if writes == [] then []
    else
      var front, w := Own(writes[..|writes| - 1], key), writes[|writes| - 1];
      if w.key == key && w.landed then front + [w.edit] else front
  }

  function Hashes(writes: seq<Write>, sheet: Sheet): set<nat> {
    set i | 0 <= i < |writes| :: sheet.hash(writes[i].key)
  }

  /** The walk for a row stops at the record: the row's hash is named, or there were too many to name. */
  predicate Concerns(writes: seq<Write>, key: int, sheet: Sheet) {
    AnyLanded(writes) && (|Hashes(writes, sheet)| > G.MAX_KEYS || sheet.hash(key) in Hashes(writes, sheet))
  }

  function EntryOf(c: Commit, key: int, sheet: Sheet): Entry {
    Entry(if !c.recorded then None
          else if Concerns(c.writes, key, sheet) then Some(Publish(Edits(c.writes)))
          else Some(ELSEWHERE),
          Own(c.writes, key))
  }

  /** The commits as one row sees them. */
  function Entries(commits: seq<Commit>, key: int, sheet: Sheet): seq<Entry> {
    seq(|commits|, t requires 0 <= t < |commits| => EntryOf(commits[t], key, sheet))
  }

  lemma EntriesOrdered(commits: seq<Commit>, key: int, sheet: Sheet)
    ensures AllOrdered(Entries(commits, key, sheet))
  {
  }

  // ---- the ring and the entries -------------------------------------------

  lemma ColsOf(writes: seq<Write>, sheet: Sheet)
    requires AnyLanded(writes)
    ensures G.Cols(Touches(writes, sheet)) == {sheet.col % 64}
  {
    G.OnlyColsSame(Touches(writes, sheet), sheet.col);
  }

  lemma HashesNamed(writes: seq<Write>, sheet: Sheet)
    requires AnyLanded(writes)
    ensures G.NamedKeys(Touches(writes, sheet)) == Hashes(writes, sheet)
  {
    var ts := Touches(writes, sheet);
    forall k
      ensures k in G.NamedKeys(ts) <==> k in Hashes(writes, sheet)
    {
      if k in G.NamedKeys(ts) {
        var i :| 0 <= i < |ts| && ts[i].key.Some? && ts[i].key.value == k;
        assert sheet.hash(writes[i].key) == k;
      }
      if k in Hashes(writes, sheet) {
        var i :| 0 <= i < |writes| && sheet.hash(writes[i].key) == k;
        assert ts[i].key.value == k;
      }
    }
  }

  lemma SkipsIff(writes: seq<Write>, key: int, sheet: Sheet, at: nat, len: nat)
    ensures G.Skips(G.FootprintOf(Touches(writes, sheet)), CellOf(key, sheet, at, len)) <==> !Concerns(writes, key, sheet)
  {
    var ts := Touches(writes, sheet);
    if AnyLanded(writes) {
      HashesNamed(writes, sheet);
      assert ts[0].table % 64 in G.Tables(ts);
      assert ts[0].key.value in G.NamedKeys(ts);
      ColsOf(writes, sheet);
      assert |Hashes(writes, sheet)| > 0;
    }
  }

  lemma StepIsEntry(c: Commit, key: int, sheet: Sheet, at: nat, len: nat, here: nat)
    requires c.recorded
    ensures G.CellStep(G.FootprintOf(Touches(c.writes, sheet)), CellOf(key, sheet, at, len), here) ==
            EntryStep(EntryOf(c, key, sheet), here, len)
  {
    hide Concerns, G.Skips, Publish;
    SkipsIff(c.writes, key, sheet, at, len);
    if Concerns(c.writes, key, sheet) {
      ConcernsSome(c.writes, key, sheet);
      PublishIsFootprint(Touches(c.writes, sheet), Edits(c.writes));
    }
  }

  lemma ConcernsSome(writes: seq<Write>, key: int, sheet: Sheet)
    requires Concerns(writes, key, sheet)
    ensures AnyLanded(writes) && writes != []
  {
  }

  lemma {:induction false} CellWalkSnoc(h: G.History, i: nat, n: nat, cell: G.CellEdit, here: nat)
    requires i <= n < |h|
    ensures G.CellWalk(h, i, n + 1, cell, here) ==
            match G.CellWalk(h, i, n, cell, here)
            case At(y) => (match h[n] case None => Unanswerable case Some(fp) => G.CellStep(fp, cell, y))
            case other => other
    decreases n - i
  {
    hide G.CellStep;
    if i < n && h[i].Some? && G.CellStep(h[i].value, cell, here).At? {
      CellWalkSnoc(h, i + 1, n, cell, G.CellStep(h[i].value, cell, here).at);
    } else if i == n && h[n].Some? {
      var out := G.CellStep(h[n].value, cell, here);
      if out.At? {
        assert G.CellWalk(h, n + 1, n + 1, cell, out.at) == out;
      }
    }
  }

  /** The walk over the ring for one row is the walk over what the commits say about it. */
  lemma {:induction false} WalkIsEntries(commits: seq<Commit>, key: int, sheet: Sheet, i: nat, n: nat, at: nat, len: nat, here: nat)
    requires i <= n <= |commits|
    ensures G.CellWalk(HistoryOf(commits, sheet), i, n, CellOf(key, sheet, at, len), here) ==
            EntryWalk(Entries(commits, key, sheet)[i..n], here, len)
    decreases n
  {
    hide G.CellWalk, G.CellStep, EntryStep, EntryOf, CellOf, EntryWalk;
    var h, es := HistoryOf(commits, sheet), Entries(commits, key, sheet);
    if i == n {
      assert es[i..n] == [];
      NoWalk(h, i, CellOf(key, sheet, at, len), here, len);
    } else {
      var m := n - 1;
      WalkIsEntries(commits, key, sheet, i, m, at, len, here);
      CellWalkSnoc(h, i, m, CellOf(key, sheet, at, len), here);
      assert es[i..n] == es[i..m] + [es[m]];
      WalkSnoc(es[i..m], es[m], here, len);
      var out := G.CellWalk(h, i, m, CellOf(key, sheet, at, len), here);
      if out.At? {
        if commits[m].recorded {
          StepIsEntry(commits[m], key, sheet, at, len, out.at);
        } else {
          Unrecorded(commits[m], key, sheet, out.at, len);
        }
      }
    }
  }

  lemma NoWalk(h: G.History, i: nat, cell: G.CellEdit, here: nat, len: nat)
    requires i <= |h|
    ensures G.CellWalk(h, i, i, cell, here) == At(here) == EntryWalk([], here, len)
  {
  }

  lemma Unrecorded(c: Commit, key: int, sheet: Sheet, here: nat, len: nat)
    requires !c.recorded
    ensures EntryStep(EntryOf(c, key, sheet), here, len) == Unanswerable
  {
  }

  // ---- when a row's edits can be trusted to the ring ----------------------

  lemma {:induction false} OwnWrite(writes: seq<Write>, key: int) returns (i: nat)
    requires Own(writes, key) != []
    ensures i < |writes| && writes[i].key == key && writes[i].landed
  {
    i := |writes| - 1;
    if !(writes[i].key == key && writes[i].landed) {
      i := OwnWrite(writes[..i], key);
    }
  }

  /** A commit that wrote a row is one its walk stops at. */
  lemma OwnConcerns(writes: seq<Write>, key: int, sheet: Sheet)
    requires Own(writes, key) != []
    ensures sheet.hash(key) in Hashes(writes, sheet) && Concerns(writes, key, sheet)
  {
    var i := OwnWrite(writes, key);
    assert sheet.hash(writes[i].key) in Hashes(writes, sheet);
    assert AnyLanded(writes);
  }

  lemma NamedConcerns(writes: seq<Write>, key: int, sheet: Sheet)
    requires AnyLanded(writes) && sheet.hash(key) in Hashes(writes, sheet)
    ensures Concerns(writes, key, sheet)
  {
  }

  lemma ElsewhereTells(n: nat, bare: bool)
    ensures EntryTells(Entry(Some(ELSEWHERE), []), n, bare)
  {
  }

  /** The record of a commit tells the truth about a row of `n` bytes. */
  predicate TellsRow(c: Commit, key: int, sheet: Sheet, n: nat, bare: bool) {
    c.recorded && Concerns(c.writes, key, sheet) ==>
      var w := Publish(Edits(c.writes));
      if bare then TellsPoints(w, Own(c.writes, key), n) else Tells(w, Own(c.writes, key), n)
  }

  lemma TellsRowIff(c: Commit, key: int, sheet: Sheet, n: nat, bare: bool)
    ensures TellsRow(c, key, sheet, n, bare) <==> EntryTells(EntryOf(c, key, sheet), n, bare)
  {
    hide Concerns, Tells, TellsPoints, Publish, Own;
    if c.recorded && !Concerns(c.writes, key, sheet) {
      if Own(c.writes, key) != [] {
        OwnConcerns(c.writes, key, sheet);
        assert false;
      }
      ElsewhereTells(n, bare);
    }
  }

  /** The row after the first `t` commits. */
  function RowAt(base: string, commits: seq<Commit>, key: int, sheet: Sheet, t: nat): string
    requires t <= |commits|
  {
    Version(base, Entries(commits, key, sheet), t)
  }

  /** The commits could splice the row as they did. */
  predicate Lawful(base: string, commits: seq<Commit>, key: int, sheet: Sheet) {
    FitsAll(Owns(Entries(commits, key, sheet)), base)
  }

  /** Where an edit decided on version `i` belongs in version `v`. */
  function Carried(commits: seq<Commit>, key: int, sheet: Sheet, i: nat, v: nat, me: Splice): Rebased
    requires i <= v <= |commits|
  {
    RebaseThrough(me, Owns(Entries(commits, key, sheet)[i..v]))
  }

  /** Any edit of the row, decided on any version and walked to any later one, is refused or right. */
  ghost predicate Safe(base: string, commits: seq<Commit>, key: int, sheet: Sheet, bare: bool) {
    forall i: nat, v: nat, me: Splice ::
      i <= v <= |commits| && (me.remove == 0 <==> bare) && Fits(me, RowAt(base, commits, key, sheet, i)) ==>
        RingIsRight(commits, key, sheet, i, v, me)
  }

  ghost predicate RingIsRight(commits: seq<Commit>, key: int, sheet: Sheet, i: nat, v: nat, me: Splice)
    requires i <= v <= |commits|
  {
    var out := G.CellWalk(HistoryOf(commits, sheet), i, v, CellOf(key, sheet, me.at, me.remove), me.at);
    out.At? ==> Carried(commits, key, sheet, i, v, me) == Ok(me.(at := out.at))
  }

  /**
   * For every history of commits of any splices of any rows: the ring refuses or rightly carries
   * every edit of a row exactly when each record that the row's walk stops at tells the truth
   * about the row as its commit found it.
   */
  lemma SafeIff(base: string, commits: seq<Commit>, key: int, sheet: Sheet, bare: bool)
    requires Lawful(base, commits, key, sheet)
    ensures Safe(base, commits, key, sheet, bare) <==>
            forall t: nat :: t < |commits| ==> TellsRow(commits[t], key, sheet, |RowAt(base, commits, key, sheet, t)|, bare)
  {
    var es := Entries(commits, key, sheet);
    hide FitsAll, EntryTells, TellsRow, Version, EntryOf, Owns, RebaseThrough, EntryWalk, G.CellWalk, CellOf;
    EntriesOrdered(commits, key, sheet);
    NeverMisleadsIff(base, es, bare);
    forall t: nat | t < |commits|
      ensures TellsRow(commits[t], key, sheet, |RowAt(base, commits, key, sheet, t)|, bare) <==>
              EntryTells(es[t], |Version(base, es, t)|, bare)
    {
      TellsRowIff(commits[t], key, sheet, |RowAt(base, commits, key, sheet, t)|, bare);
    }
    forall i: nat, v: nat, me: Splice | i <= v <= |commits|
      ensures RingIsRight(commits, key, sheet, i, v, me) <==> WalkIsRight(es[i..v], me)
    {
      WalkIsEntries(commits, key, sheet, i, v, me.at, me.remove, me.at);
    }
    hide WalkIsRight, RingIsRight;
  }
}
