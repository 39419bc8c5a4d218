/** Batches that a client can send and that put an edit, or the lack of one, in the wrong place. */
module MisledBatches {
  import opened Options
  import opened SubEdit
  import opened EditBatch
  import opened CommitRecords
  import opened RecordWalk
  import opened RowCommits
  import opened SubmitBatch
  import G = GuardRing

  // ---- a history of one commit --------------------------------------------

  lemma NamedEntry(c: Commit, key: int, sheet: Sheet, i: nat)
    requires c.recorded && i < |c.writes| && c.writes[i].key == key && c.writes[i].landed
    ensures EntryOf(c, key, sheet) == Entry(Some(Publish(Edits(c.writes))), Own(c.writes, key))
  {
    hide Concerns, Publish, Own;
    assert sheet.hash(c.writes[i].key) in Hashes(c.writes, sheet) && AnyLanded(c.writes);
    NamedConcerns(c.writes, key, sheet);
  }

  lemma OneCommit(c: Commit, sheet: Sheet, s: Submission, at: nat)
    requires s.snap == 0
    ensures Walked([c], sheet, s, at) == EntryStep(EntryOf(c, s.key, sheet), at, s.edit.remove)
    ensures Belongs([c], sheet, s) == RebaseThrough(s.edit, Own(c.writes, s.key))
  {
    hide Own, EntryStep, RebaseThrough;
    var e := EntryOf(c, s.key, sheet);
    WalkedIs([c], sheet, s, at);
    assert Window([c], sheet, s) == [e];
    WalkSnoc([], e, at, s.edit.remove);
    assert [] + [e] == [e] && [] + e.own == e.own;
  }

  lemma PairPublished(a: Write, b: Write)
    ensures Edits([a, b]) == [a.edit, b.edit]
    ensures Publish([a.edit, b.edit]) ==
            Written(Min(a.edit.at, b.edit.at), Max(End(a.edit), End(b.edit)), Delta(a.edit) + Delta(b.edit))
  {
    assert [a.edit, b.edit][1..] == [b.edit];
  }

  lemma PairOwn(a: Write, b: Write, key: int)
    ensures Own([a, b], key) == (if a.key == key && a.landed then [a.edit] else []) + (if b.key == key && b.landed then [b.edit] else [])
  {
    OwnSnoc([], a, key);
    OwnSnoc([a], b, key);
    assert [] + [a] == [a] && [a] + [b] == [a, b] && [] + [a.edit] == [a.edit];
  }

  lemma OneOwn(a: Write, key: int)
    ensures Edits([a]) == [a.edit] && Own([a], key) == if a.key == key && a.landed then [a.edit] else []
  {
    OwnSnoc([], a, key);
    assert [] + [a] == [a] && [] + [a.edit] == [a.edit];
  }

  lemma OneRebase(me: Splice, c: Splice)
    ensures RebaseThrough(me, [c]) == Rebase(me, c)
  {
    RebaseSnoc(me, [], c);
    assert [] + [c] == [c];
  }

  // ---- the answer to a batch ----------------------------------------------

  lemma GuardClears(commits: seq<Commit>, sheet: Sheet, snap: nat)
    requires |commits| <= snap + G.SLOTS && forall t :: 0 <= t < |commits| ==> commits[t].recorded
    ensures G.Judge(HistoryOf(commits, sheet), snap, G.SurfaceOf([], true)) == G.Clear
  {
    hide G.FootprintOf;
    var h, s := HistoryOf(commits, sheet), G.SurfaceOf([], true);
    assert forall u :: snap <= u < |h| ==> h[u].Some? && !G.Hits(h[u].value, s);
  }

  lemma OneTurn(commits: seq<Commit>, sheet: Sheet, values: map<int, string>, s: Submission, y: nat)
    requires s.key in values && Walked(commits, sheet, s, s.edit.at) == At(y) && y + s.edit.remove <= |values[s.key]|
    ensures Ran(commits, sheet, values, [s]) ==
            Batch([s.edit], values[s.key := Apply(s.edit.(at := y), values[s.key])], [true], [Write(s.key, s.edit.(at := y), true)])
  {
    hide Walked, Apply;
    assert [s][..0] == [] && Shift([], s.edit.at) == 0;
    assert [] + [s.edit] == [s.edit] && [] + [true] == [true];
    var w := Write(s.key, s.edit.(at := y), true);
    assert [] + [w] == [w];
  }

  lemma Alone(commits: seq<Commit>, sheet: Sheet, values: map<int, string>, s: Submission, y: nat)
    requires s.key in values && Walked(commits, sheet, s, s.edit.at) == At(y) && y + s.edit.remove <= |values[s.key]|
    requires |commits| <= s.snap + G.SLOTS && forall t :: 0 <= t < |commits| ==> commits[t].recorded
    ensures var r := Submitted(commits, sheet, values, [s]);
            r.verdicts == [true] && r.values == values[s.key := Apply(s.edit.(at := y), values[s.key])]
  {
    hide Walked, Apply, G.Judge, G.SurfaceOf, HistoryOf, Ran;
    OneTurn(commits, sheet, values, s, y);
    GuardClears(commits, sheet, s.snap);
  }

  lemma SecondTurn(commits: seq<Commit>, sheet: Sheet, values: map<int, string>, a: Submission, b: Submission)
    ensures Ran(commits, sheet, values, [a, b]) == Turn(commits, sheet, Ran(commits, sheet, values, [a]), b)
  {
    hide Turn;
    assert [a, b][..1] == [a];
  }

  lemma Both(commits: seq<Commit>, sheet: Sheet, values: map<int, string>, a: Submission, b: Submission)
    requires true in Ran(commits, sheet, values, [a, b]).verdicts && a.snap == b.snap == 0
    requires |commits| <= G.SLOTS && forall t :: 0 <= t < |commits| ==> commits[t].recorded
    ensures var r, t := Submitted(commits, sheet, values, [a, b]), Ran(commits, sheet, values, [a, b]);
            r.verdicts == t.verdicts && r.values == t.values
  {
    hide Ran, G.Judge, G.SurfaceOf, HistoryOf;
    assert [a, b][1..] == [b];
    GuardClears(commits, sheet, OldestSnap([a, b]));
  }

  /** How far one applied edit moves another. */
  lemma AfterOne(a: Splice, s: Splice)
    ensures Clear([a], s) <==> !Overlaps(a, s)
    ensures Shift([a], s.at) == if End(a) <= s.at then Delta(a) else 0
  {
    assert [a][..0] == [] && [a][0] == a;
  }

  lemma TurnAt(commits: seq<Commit>, sheet: Sheet, b: Batch, s: Submission, x: nat, y: nat)
    requires Clear(b.applied, s.edit) && s.edit.at + Shift(b.applied, s.edit.at) == x && s.key in b.values
    requires Walked(commits, sheet, s, x) == At(y) && y + s.edit.remove <= |b.values[s.key]|
    ensures var t := Turn(commits, sheet, b, s);
            && t.values == b.values[s.key := Apply(s.edit.(at := y), b.values[s.key])]
            && t.verdicts == b.verdicts + [true]
  {
    hide Apply, Shift, Clear, Walked;
  }

  /** Two members that both survive. */
  lemma Pair(commits: seq<Commit>, sheet: Sheet, values: map<int, string>, a: Submission, b: Submission,
             ya: nat, x: nat, yb: nat, now: map<int, string>)
    requires |commits| <= G.SLOTS && (forall t :: 0 <= t < |commits| ==> commits[t].recorded) && a.snap == b.snap == 0
    requires a.key in values && Walked(commits, sheet, a, a.edit.at) == At(ya) && ya + a.edit.remove <= |values[a.key]|
    requires !Overlaps(a.edit, b.edit) && x == b.edit.at + if End(a.edit) <= b.edit.at then Delta(a.edit) else 0
    requires now == values[a.key := Apply(a.edit.(at := ya), values[a.key])]
    requires b.key in now && Walked(commits, sheet, b, x) == At(yb) && yb + b.edit.remove <= |now[b.key]|
    ensures var r := Submitted(commits, sheet, values, [a, b]);
            r.verdicts == [true, true] && r.values == now[b.key := Apply(b.edit.(at := yb), now[b.key])]
  {
    hide *;
    OneTurn(commits, sheet, values, a, ya);
    SecondTurn(commits, sheet, values, a, b);
    AfterOne(a.edit, b.edit);
    TurnAt(commits, sheet, Ran(commits, sheet, values, [a]), b, x, yb);
    assert [true] + [true] == [true, true];
    Both(commits, sheet, values, a, b);
  }

  // ---- what goes wrong ----------------------------------------------------

  /**
   * A commit inserted two bytes at 8. Of two members that had not seen it one types three bytes in
   * front and one deletes the byte at 6, which the commit did not move. The walk compares 9, where
   * the batch has moved it, with 8, and the deletion lands at 11, in the committed text.
   */
  lemma RulersAreMixed(sheet: Sheet, text: string)
    requires |text| >= 10
    ensures var commits := [Commit([Write(1, Splice(8, 0, "XX"), true)], true)];
            var a, b := Submission(1, 1, 0, 1, Splice(0, 0, "123")), Submission(2, 2, 0, 1, Splice(6, 1, ""));
            var r := Submitted(commits, sheet, map[1 := text], [a, b]);
            && Belongs(commits, sheet, b) == Ok(b.edit) && r.verdicts == [true, true]
            && r.values == map[1 := Apply(Splice(11, 1, ""), Apply(Splice(0, 0, "123"), text))]
  {
    var w := Write(1, Splice(8, 0, "XX"), true);
    var a, b := Submission(1, 1, 0, 1, Splice(0, 0, "123")), Submission(2, 2, 0, 1, Splice(6, 1, ""));
    hide *;
    OneCommitOf(w, sheet, a, 0);
    OneCommitOf(w, sheet, b, 9);
    RulersSteps(w, a.edit, b.edit, text);
    var values, now := map[1 := text], map[1 := Apply(a.edit, text)];
    assert a.edit.(at := 0) == a.edit && b.edit.(at := 11) == Splice(11, 1, "") && now == values[1 := Apply(a.edit, text)];
    Pair([Commit([w], true)], sheet, values, a, b, 0, 9, 11, now);
  }

  lemma OneCommitOf(w: Write, sheet: Sheet, s: Submission, at: nat)
    requires s.snap == 0 && s.key == w.key && w.landed
    ensures Walked([Commit([w], true)], sheet, s, at) == RingStep(at, s.edit.remove, Record(w.edit))
    ensures Belongs([Commit([w], true)], sheet, s) == Rebase(s.edit, w.edit)
  {
    hide RingStep, Rebase;
    var c := Commit([w], true);
    OneCommit(c, sheet, s, at);
    NamedEntry(c, s.key, sheet, 0);
    OneOwn(w, s.key);
    OneRebase(s.edit, w.edit);
  }

  lemma RulersSteps(w: Write, a: Splice, b: Splice, text: string)
    requires w.edit == Splice(8, 0, "XX") && a == Splice(0, 0, "123") && b == Splice(6, 1, "")
    ensures RingStep(0, 0, Record(w.edit)) == At(0) && RingStep(9, 1, Record(w.edit)) == At(11) && Rebase(b, w.edit) == Ok(b)
    ensures !Overlaps(a, b) && End(a) == 0 && Delta(a) == 3 && |Apply(a, text)| == |text| + 3
  {
  }

  /** Three bytes typed on row 1 move a deletion on row 2 by three. */
  lemma RowsAreMixed(sheet: Sheet, one: string, two: string)
    requires |two| >= 10
    ensures var a, b := Submission(1, 1, 0, 1, Splice(0, 0, "123")), Submission(2, 2, 0, 2, Splice(6, 1, ""));
            var r := Submitted([], sheet, map[1 := one, 2 := two], [a, b]);
            && Belongs([], sheet, b) == Ok(b.edit) && r.verdicts == [true, true]
            && r.values == map[1 := Apply(a.edit, one), 2 := Apply(Splice(9, 1, ""), two)]
  {
    var a, b := Submission(1, 1, 0, 1, Splice(0, 0, "123")), Submission(2, 2, 0, 2, Splice(6, 1, ""));
    hide *;
    NoCommits(sheet, a, 0);
    NoCommits(sheet, b, 9);
    RulersSteps(Write(1, Splice(8, 0, "XX"), true), a.edit, b.edit, one);
    var values, now := map[1 := one, 2 := two], map[1 := Apply(a.edit, one), 2 := two];
    assert a.edit.(at := 0) == a.edit && b.edit.(at := 9) == Splice(9, 1, "");
    TwoRows(one, two, Apply(a.edit, one), Apply(Splice(9, 1, ""), two));
    Pair([], sheet, values, a, b, 0, 9, 9, now);
  }

  lemma TwoRows(one: string, two: string, first: string, second: string)
    ensures map[1 := one, 2 := two][1 := first] == map[1 := first, 2 := two]
    ensures map[1 := first, 2 := two][2 := second] == map[1 := first, 2 := second]
  {
  }

  lemma NoCommits(sheet: Sheet, s: Submission, at: nat)
    ensures Walked([], sheet, s, at) == At(at) && Belongs([], sheet, s) == Ok(s.edit)
  {
  }

  /** Four bytes deleted on row 1 make a deletion on row 2 lose. */
  lemma RowsLoseToEachOther(sheet: Sheet, one: string, two: string)
    requires |one| >= 4
    ensures var a, b := Submission(1, 1, 0, 1, Splice(0, 4, "")), Submission(2, 2, 0, 2, Splice(1, 1, ""));
            Submitted([], sheet, map[1 := one, 2 := two], [a, b]).verdicts == [true, false]
  {
    var a, b := Submission(1, 1, 0, 1, Splice(0, 4, "")), Submission(2, 2, 0, 2, Splice(1, 1, ""));
    var values := map[1 := one, 2 := two];
    hide Walked, Ran, Apply, Shift, G.Judge;
    NoCommits(sheet, a, 0);
    OneTurn([], sheet, values, a, 0);
    SecondTurn([], sheet, values, a, b);
    assert Overlaps([a.edit][0], b.edit);
    assert [true] + [false] == [true, false];
    Both([], sheet, values, a, b);
  }

  /** A commit of two statements that both concern the member's row, or only one does. */
  lemma PairCommit(x: Write, y: Write, sheet: Sheet, s: Submission)
    requires s.snap == 0 && y.key == s.key && y.landed
    ensures var c := Commit([x, y], true);
            && Walked([c], sheet, s, s.edit.at) ==
               RingStep(s.edit.at, s.edit.remove,
                        Written(Min(x.edit.at, y.edit.at), Max(End(x.edit), End(y.edit)), Delta(x.edit) + Delta(y.edit)))
            && Belongs([c], sheet, s) ==
               RebaseThrough(s.edit, (if x.key == s.key && x.landed then [x.edit] else []) + [y.edit])
  {
    hide RingStep, RebaseThrough, Publish, Own;
    var c := Commit([x, y], true);
    OneCommit(c, sheet, s, s.edit.at);
    NamedEntry(c, s.key, sheet, 1);
    PairPublished(x, y);
    PairOwn(x, y, s.key);
  }

  /** A deletion of text that a commit replaced is put into text it never saw: the record of a deletion in
      front and a replacement behind does not reach the text that was replaced. */
  lemma RecordHidesACollision(sheet: Sheet, text: string)
    requires |text| >= 4
    ensures var commits := [Commit([Write(1, Splice(0, 4, ""), true), Write(1, Splice(2, 2, "ZZ"), true)], true)];
            var s := Submission(1, 1, 0, 1, Splice(7, 1, ""));
            var r := Submitted(commits, sheet, map[1 := text], [s]);
            && Belongs(commits, sheet, s).Err? && r.verdicts == [true]
            && r.values == map[1 := Apply(Splice(3, 1, ""), text)]
  {
    var x, y := Write(1, Splice(0, 4, ""), true), Write(1, Splice(2, 2, "ZZ"), true);
    var s := Submission(1, 1, 0, 1, Splice(7, 1, ""));
    hide *;
    PairCommit(x, y, sheet, s);
    HidesSteps(x, y, s.edit);
    assert s.edit.(at := 3) == Splice(3, 1, "");
    assert map[1 := text][1 := Apply(Splice(3, 1, ""), text)] == map[1 := Apply(Splice(3, 1, ""), text)];
    Alone([Commit([x, y], true)], sheet, map[1 := text], s, 3);
  }

  lemma HidesSteps(x: Write, y: Write, me: Splice)
    requires x == Write(1, Splice(0, 4, ""), true) && y == Write(1, Splice(2, 2, "ZZ"), true) && me == Splice(7, 1, "")
    ensures RingStep(me.at, me.remove, Written(Min(x.edit.at, y.edit.at), Max(End(x.edit), End(y.edit)), Delta(x.edit) + Delta(y.edit))) == At(3)
    ensures me.remove == 1 && x.key == 1 && x.landed == true
    ensures RebaseThrough(me, [x.edit] + [y.edit]).Err?
  {
    RebaseSnoc(me, [x.edit], y.edit);
    OneRebase(me, x.edit);
  }

  /** A commit that typed three bytes on row 1 and two on row 2 moves an edit of row 2 by five. */
  lemma RowsShareARecord(sheet: Sheet, text: string)
    requires |text| >= 26
    ensures var commits := [Commit([Write(1, Splice(0, 0, "abc"), true), Write(2, Splice(10, 0, "XY"), true)], true)];
            var s := Submission(1, 1, 0, 2, Splice(20, 1, ""));
            var r := Submitted(commits, sheet, map[2 := text], [s]);
            && Belongs(commits, sheet, s) == Ok(Splice(22, 1, "")) && r.verdicts == [true]
            && r.values == map[2 := Apply(Splice(25, 1, ""), text)]
  {
    var x, y := Write(1, Splice(0, 0, "abc"), true), Write(2, Splice(10, 0, "XY"), true);
    var s := Submission(1, 1, 0, 2, Splice(20, 1, ""));
    hide *;
    PairCommit(x, y, sheet, s);
    SharesSteps(x, y, s.edit);
    assert s.edit.(at := 25) == Splice(25, 1, "");
    assert map[2 := text][2 := Apply(Splice(25, 1, ""), text)] == map[2 := Apply(Splice(25, 1, ""), text)];
    Alone([Commit([x, y], true)], sheet, map[2 := text], s, 25);
  }

  lemma SharesSteps(x: Write, y: Write, me: Splice)
    requires x == Write(1, Splice(0, 0, "abc"), true) && y == Write(2, Splice(10, 0, "XY"), true) && me == Splice(20, 1, "")
    ensures RingStep(me.at, me.remove, Written(Min(x.edit.at, y.edit.at), Max(End(x.edit), End(y.edit)), Delta(x.edit) + Delta(y.edit))) == At(25)
    ensures me.remove == 1 && x.key == 1 && x.landed == true
    ensures RebaseThrough(me, [] + [y.edit]) == Ok(Splice(22, 1, ""))
  {
    assert [] + [y.edit] == [y.edit];
    OneRebase(me, y.edit);
  }

  /** Beside one that landed, a statement that was undone or found no row moves later edits all the same. */
  lemma UndoneStaysRecorded(sheet: Sheet, text: string)
    requires |text| >= 25
    ensures var commits := [Commit([Write(1, Splice(0, 0, "abc"), false), Write(1, Splice(0, 0, "X"), true)], true)];
            var s := Submission(1, 1, 0, 1, Splice(20, 1, ""));
            var r := Submitted(commits, sheet, map[1 := text], [s]);
            && Belongs(commits, sheet, s) == Ok(Splice(21, 1, "")) && r.verdicts == [true]
            && r.values == map[1 := Apply(Splice(24, 1, ""), text)]
  {
    var x, y := Write(1, Splice(0, 0, "abc"), false), Write(1, Splice(0, 0, "X"), true);
    var s := Submission(1, 1, 0, 1, Splice(20, 1, ""));
    hide *;
    PairCommit(x, y, sheet, s);
    UndoneSteps(x, y, s.edit);
    assert s.edit.(at := 24) == Splice(24, 1, "");
    assert map[1 := text][1 := Apply(Splice(24, 1, ""), text)] == map[1 := Apply(Splice(24, 1, ""), text)];
    Alone([Commit([x, y], true)], sheet, map[1 := text], s, 24);
  }

  lemma UndoneSteps(x: Write, y: Write, me: Splice)
    requires x == Write(1, Splice(0, 0, "abc"), false) && y == Write(1, Splice(0, 0, "X"), true) && me == Splice(20, 1, "")
    ensures RingStep(me.at, me.remove, Written(Min(x.edit.at, y.edit.at), Max(End(x.edit), End(y.edit)), Delta(x.edit) + Delta(y.edit))) == At(24)
    ensures me.remove == 1 && x.key == 1 && x.landed == false
    ensures RebaseThrough(me, [] + [y.edit]) == Ok(Splice(21, 1, ""))
  {
    assert [] + [y.edit] == [y.edit];
    OneRebase(me, y.edit);
  }

  /** No edit is safe from every commit: one that types on its row and on another misleads it, whatever it is. */
  lemma NoEditIsSafe(sheet: Sheet, s: Submission, other: int)
    requires s.snap == 0 && other != s.key
    ensures var c := Commit([Write(other, Splice(0, 0, "abc"), true), Write(s.key, Splice(0, 0, "X"), true)], true);
            && Walked([c], sheet, s, s.edit.at) == At(s.edit.at + 4)
            && Belongs([c], sheet, s) == Ok(s.edit.(at := s.edit.at + 1))
  {
    var x, y := Write(other, Splice(0, 0, "abc"), true), Write(s.key, Splice(0, 0, "X"), true);
    PairCommit(x, y, sheet, s);
    assert [] + [y.edit] == [y.edit];
    OneRebase(s.edit, y.edit);
  }
}
