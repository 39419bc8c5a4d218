/**
 * A batch of submitted edits as the service applies it: in the order of the submitters'
 * counters, each edit moved by the batch's earlier edits and then by the commits its
 * author had not seen, commits of earlier batches included. Every submission names its row
 * and the snapshot it was decided on.
 */
module SubmitBatch {
  import opened Options
  import opened SubEdit
  import opened EditBatch
  import opened RecordWalk
  import opened RowCommits
  import G = GuardRing

  datatype Submission = Submission(seqNo: nat, editor: nat, snap: nat, key: int, edit: Splice)

  // ---- the order of the counters ------------------------------------------

  predicate Before(a: Submission, b: Submission) {
    a.seqNo < b.seqNo || (a.seqNo == b.seqNo && a.editor < b.editor)
  }

  predicate Ordered(subs: seq<Submission>) {
    forall i, j :: 0 <= i < j < |subs| ==> Before(subs[i], subs[j])
  }

  /** The counters decide the order, so neither verdicts nor text depend on arrival. */
  lemma {:induction false} OrderIsDetermined(a: seq<Submission>, b: seq<Submission>)
    requires Ordered(a) && Ordered(b) && multiset(a) == multiset(b)
    ensures a == b
    decreases |a|
  {
    assert |a| == |multiset(a)| == |multiset(b)| == |b|;
    if a != [] {
      var x, y := a[0], b[0];
      assert x in multiset(b) && y in multiset(a);
      assert x in b && y in a;
      assert x == y;
      assert a == [x] + a[1..] && b == [y] + b[1..];
      assert multiset(a[1..]) == multiset(a) - multiset{x};
      OrderIsDetermined(a[1..], b[1..]);
    }
  }

  // ---- the batch ----------------------------------------------------------

  /** The engine's walk for one member, from its own snapshot. */
  function Walked(commits: seq<Commit>, sheet: Sheet, s: Submission, at: nat): Outcome {
    G.Rebased(HistoryOf(commits, sheet), s.snap, CellOf(s.key, sheet, at, s.edit.remove))
  }

  /** The edits applied so far as their authors wrote them, the rows, a verdict for each member, and the
      statements recorded for the commit. */
  datatype Batch = Batch(applied: seq<Splice>, values: map<int, string>, verdicts: seq<bool>, wrote: seq<Write>)

  function Lost(b: Batch): Batch {
    b.(verdicts := b.verdicts + [false])
  }

  function Done(b: Batch, s: Submission, put: Splice, values: map<int, string>, landed: bool): Batch {
    Batch(b.applied + [s.edit], values, b.verdicts + [true], b.wrote + [Write(s.key, put, landed)])
  }

  /** One member's turn. An UPDATE that finds no row changes nothing and still counts as applied; one that
      the value cannot hold is undone, and stays recorded. */
  function Turn(commits: seq<Commit>, sheet: Sheet, b: Batch, s: Submission): (t: Batch)
    ensures t.values.Keys == b.values.Keys && |t.verdicts| == |b.verdicts| + 1
  {
    var at := s.edit.at + Shift(b.applied, s.edit.at);
    if !Clear(b.applied, s.edit) || at < 0 then Lost(b)
    else match Walked(commits, sheet, s, at)
      case Collision => Lost(b)
      case Unanswerable => Lost(b)
      case At(y) =>
        var put := s.edit.(at := y);
        if s.key !in b.values then Done(b, s, put, b.values, false)
        else if y + s.edit.remove > |b.values[s.key]| then Lost(b).(wrote := b.wrote + [Write(s.key, put, false)])
        else Done(b, s, put, b.values[s.key := Apply(put, b.values[s.key])], true)
  }

  function Ran(commits: seq<Commit>, sheet: Sheet, values: map<int, string>, subs: seq<Submission>): (b: Batch)
    ensures |b.verdicts| == |subs| && b.values.Keys == values.Keys
  {
    if subs == [] then Batch([], values, [], [])
    else Turn(commits, sheet, Ran(commits, sheet, values, subs[..|subs| - 1]), subs[|subs| - 1])
  }

  function OldestSnap(subs: seq<Submission>): nat
    requires subs != []
  {
    if |subs| == 1 then subs[0].snap else Min(subs[0].snap, OldestSnap(subs[1..]))
  }

  /** The rows, the history and the verdicts after a batch. */
  datatype Answer = Answer(values: map<int, string>, commits: seq<Commit>, verdicts: seq<bool>)

  /** The commit's guard is taken at the oldest snapshot; the walks have settled its byte range, so only a
      window the ring cannot show refuses the batch. A batch without a survivor does not commit. */
  function Submitted(commits: seq<Commit>, sheet: Sheet, values: map<int, string>, subs: seq<Submission>): Answer {
    var b := Ran(commits, sheet, values, subs);
    if true !in b.verdicts then Answer(values, commits, b.verdicts)
    else if G.Judge(HistoryOf(commits, sheet), OldestSnap(subs), G.SurfaceOf([], true)) != G.Clear then
      Answer(values, commits, seq(|subs|, _ => false))
    else Answer(b.values, commits + [Commit(b.wrote, true)], b.verdicts)
  }

  method Oldest(subs: seq<Submission>) returns (snap: nat)
    requires subs != []
    ensures snap == OldestSnap(subs)
  {
    snap := subs[|subs| - 1].snap;
    for i := |subs| - 1 downto 0
      invariant snap == OldestSnap(subs[i..])
    {
      assert subs[i..][1..] == subs[i + 1..];
      snap := Min(subs[i].snap, snap);
    }
    assert subs[0..] == subs;
  }

  /** The loop over the members. */
  method TakeTurns(commits: seq<Commit>, sheet: Sheet, values: map<int, string>, subs: seq<Submission>)
    returns (now: map<int, string>, verdicts: seq<bool>, wrote: seq<Write>, any: bool)
    ensures var b := Ran(commits, sheet, values, subs); now == b.values && verdicts == b.verdicts && wrote == b.wrote
    ensures any <==> true in verdicts
  {
    hide Walked, Apply, Shift, Clear;
    var applied: seq<Splice> := [];
    now, verdicts, wrote, any := values, [], [], false;
    for i := 0 to |subs|
      invariant Batch(applied, now, verdicts, wrote) == Ran(commits, sheet, values, subs[..i])
      invariant any <==> true in verdicts
    {
      var s := subs[i];
      assert subs[..i + 1][..i] == subs[..i];
      if !Clear(applied, s.edit) {
        verdicts := verdicts + [false];
        continue;
      }
      var at := s.edit.at + Shift(applied, s.edit.at);
      if at < 0 {
        verdicts := verdicts + [false];
        continue;
      }
      var walked := Walked(commits, sheet, s, at);
      if !walked.At? {
        verdicts := verdicts + [false];
        continue;
      }
      var put := s.edit.(at := walked.at);
      if s.key in now && walked.at + s.edit.remove > |now[s.key]| {
        verdicts, wrote := verdicts + [false], wrote + [Write(s.key, put, false)];
        continue;
      }
      wrote := wrote + [Write(s.key, put, s.key in now)];
      if s.key in now {
        now := now[s.key := Apply(put, now[s.key])];
      }
      applied, verdicts, any := applied + [s.edit], verdicts + [true], true;
    }
    assert subs[..|subs|] == subs;
  }

  method Submit(commits: seq<Commit>, sheet: Sheet, values: map<int, string>, subs: seq<Submission>)
    returns (answer: Answer)
    ensures answer == Submitted(commits, sheet, values, subs)
  {
    hide Turn, G.Judge, G.SurfaceOf, HistoryOf;
    if subs == [] {
      return Answer(values, commits, []);
    }
    var snap := Oldest(subs);
    var now, verdicts, wrote, any := TakeTurns(commits, sheet, values, subs);
    if !any {
      return Answer(values, commits, verdicts);
    }
    if G.Judge(HistoryOf(commits, sheet), snap, G.SurfaceOf([], true)) != G.Clear {
      return Answer(values, commits, seq(|subs|, _ => false));
    }
    return Answer(now, commits + [Commit(wrote, true)], verdicts);
  }

  // ---- where an edit belongs ----------------------------------------------

  /** What the commits its author had not seen say about a member's row and did to it. */
  function Window(commits: seq<Commit>, sheet: Sheet, s: Submission): seq<Entry> {
    Entries(commits, s.key, sheet)[Min(s.snap, |commits|)..]
  }

  lemma WalkedIs(commits: seq<Commit>, sheet: Sheet, s: Submission, at: nat)
    ensures Walked(commits, sheet, s, at) ==
            if |commits| > s.snap + G.SLOTS then Unanswerable
            else EntryWalk(Window(commits, sheet, s), at, s.edit.remove)
  {
    hide G.CellWalk, EntryWalk, EntryOf;
    var n := |commits|;
    if n <= s.snap {
      assert Window(commits, sheet, s) == [];
      NoWalk(HistoryOf(commits, sheet), n, CellOf(s.key, sheet, at, s.edit.remove), at, s.edit.remove);
    } else if n <= s.snap + G.SLOTS {
      WalkIsEntries(commits, s.key, sheet, s.snap, n, at, s.edit.remove, at);
      assert Entries(commits, s.key, sheet)[s.snap..n] == Entries(commits, s.key, sheet)[s.snap..];
    }
  }

  /** The edit carried through the commits its author had not seen. */
  function Belongs(commits: seq<Commit>, sheet: Sheet, s: Submission): Rebased {
    RebaseThrough(s.edit, Owns(Window(commits, sheet, s)))
  }

  /** The edits of one row that the batch committed, each carried to the value the batch found. */
  function Landed(commits: seq<Commit>, sheet: Sheet, values: map<int, string>, subs: seq<Submission>, key: int): seq<Splice> {
    if subs == [] then []
    else
      var s, before := subs[|subs| - 1], Landed(commits, sheet, values, subs[..|subs| - 1], key);
      if s.key == key && Ran(commits, sheet, values, subs).verdicts[|subs| - 1] && Belongs(commits, sheet, s).Ok?
      then before + [Belongs(commits, sheet, s).splice] else before
  }

  /** What the batch's earlier edits of the same row really move the edit by. */
  function Displacement(commits: seq<Commit>, sheet: Sheet, values: map<int, string>, subs: seq<Submission>, i: nat): int
    requires i < |subs| && Belongs(commits, sheet, subs[i]).Ok?
  {
    Shift(Landed(commits, sheet, values, subs[..i], subs[i].key), Belongs(commits, sheet, subs[i]).splice.at)
  }

  /** The offset a member is given before the walk. */
  function Start(commits: seq<Commit>, sheet: Sheet, values: map<int, string>, subs: seq<Submission>, i: nat): int
    requires i < |subs|
  {
    subs[i].edit.at + Shift(Ran(commits, sheet, values, subs[..i]).applied, subs[i].edit.at)
  }

  // ---- when a member lands where its author put it ------------------------

  /** The member really collides neither with a commit nor with an edit the batch has put in its row. */
  predicate Genuine(commits: seq<Commit>, sheet: Sheet, values: map<int, string>, subs: seq<Submission>, i: nat)
    requires i < |subs|
  {
    && Belongs(commits, sheet, subs[i]).Ok?
    && Clear(Landed(commits, sheet, values, subs[..i], subs[i].key), Belongs(commits, sheet, subs[i]).splice)
  }

  /** It ends where the commits carry it, moved by the batch's earlier edits of its row and by nothing else. */
  predicate LandsRight(commits: seq<Commit>, sheet: Sheet, values: map<int, string>, subs: seq<Submission>, i: nat)
    requires i < |subs|
  {
    var start := Start(commits, sheet, values, subs, i);
    && Genuine(commits, sheet, values, subs, i) && 0 <= start
    && match Walked(commits, sheet, subs[i], start)
       case At(y) => y == Belongs(commits, sheet, subs[i]).splice.at + Displacement(commits, sheet, values, subs, i)
       case _ => false
  }

  /** The edits the code counts, whatever their rows and snapshots, and the strays of the records it walks
      over add up to what the edits of the same row move it by. */
  predicate Balances(commits: seq<Commit>, sheet: Sheet, values: map<int, string>, subs: seq<Submission>, i: nat)
    requires i < |subs| && Genuine(commits, sheet, values, subs, i) && 0 <= Start(commits, sheet, values, subs, i)
  {
    var s := subs[i];
    Shift(Ran(commits, sheet, values, subs[..i]).applied, s.edit.at)
      + Strays(Window(commits, sheet, s), Start(commits, sheet, values, subs, i), s.edit)
    == Displacement(commits, sheet, values, subs, i)
  }

  /** A member that collides with nothing lands right exactly when no record refuses it and the moves balance. */
  lemma LandsRightIff(commits: seq<Commit>, sheet: Sheet, values: map<int, string>, subs: seq<Submission>, i: nat)
    requires i < |subs| && Genuine(commits, sheet, values, subs, i)
    ensures LandsRight(commits, sheet, values, subs, i) <==>
            && 0 <= Start(commits, sheet, values, subs, i)
            && Walked(commits, sheet, subs[i], Start(commits, sheet, values, subs, i)).At?
            && Balances(commits, sheet, values, subs, i)
  {
    hide Walked, Window, EntryWalk, Owns, Strays, RebaseThrough, Clear, Landed, Ran, Shift;
    var s, start := subs[i], Start(commits, sheet, values, subs, i);
    if 0 <= start {
      WalkedIs(commits, sheet, s, start);
      EndsOffIff(Window(commits, sheet, s), start, s.edit, Displacement(commits, sheet, values, subs, i));
    }
  }

  // ---- the whole batch ----------------------------------------------------

  predicate Survives(commits: seq<Commit>, sheet: Sheet, values: map<int, string>, subs: seq<Submission>, i: nat)
    requires i < |subs|
  {
    Ran(commits, sheet, values, subs).verdicts[i] && subs[i].key in values
  }

  predicate SurvivorsLandRight(commits: seq<Commit>, sheet: Sheet, values: map<int, string>, subs: seq<Submission>) {
    forall i :: 0 <= i < |subs| && Survives(commits, sheet, values, subs, i) ==> LandsRight(commits, sheet, values, subs, i)
  }

  /** For every batch over every history: all survivors land right exactly when none really collided and the
      moves of each balance. */
  lemma SurvivorsLandRightIff(commits: seq<Commit>, sheet: Sheet, values: map<int, string>, subs: seq<Submission>)
    ensures forall i :: 0 <= i < |subs| && Survives(commits, sheet, values, subs, i) ==>
              0 <= Start(commits, sheet, values, subs, i)
    ensures SurvivorsLandRight(commits, sheet, values, subs) <==>
            forall i :: 0 <= i < |subs| && Survives(commits, sheet, values, subs, i) ==>
              Genuine(commits, sheet, values, subs, i) && Balances(commits, sheet, values, subs, i)
  {
    hide LandsRight, Balances, Genuine, Survives, Start;
    forall i | 0 <= i < |subs| && Survives(commits, sheet, values, subs, i)
      ensures 0 <= Start(commits, sheet, values, subs, i)
      ensures LandsRight(commits, sheet, values, subs, i) <==>
              Genuine(commits, sheet, values, subs, i) && Balances(commits, sheet, values, subs, i)
    {
      SurvivorWasWalked(commits, sheet, values, subs, i);
      if Genuine(commits, sheet, values, subs, i) {
        LandsRightIff(commits, sheet, values, subs, i);
      } else {
        NotGenuine(commits, sheet, values, subs, i);
      }
    }
  }

  lemma NotGenuine(commits: seq<Commit>, sheet: Sheet, values: map<int, string>, subs: seq<Submission>, i: nat)
    requires i < |subs| && !Genuine(commits, sheet, values, subs, i)
    ensures !LandsRight(commits, sheet, values, subs, i)
  {
  }

  lemma SurvivorWasWalked(commits: seq<Commit>, sheet: Sheet, values: map<int, string>, subs: seq<Submission>, i: nat)
    requires i < |subs| && Survives(commits, sheet, values, subs, i)
    ensures 0 <= Start(commits, sheet, values, subs, i)
    ensures Walked(commits, sheet, subs[i], Start(commits, sheet, values, subs, i)).At?
  {
    hide Ran, Walked, Shift;
    VerdictOfPrefix(commits, sheet, values, subs, i + 1, i);
    LastOfPrefix(commits, sheet, values, subs, i);
    TurnEffect(commits, sheet, Ran(commits, sheet, values, subs[..i]), subs[i]);
  }

  lemma TurnMerges(base: string, landed: seq<Splice>, text: string, c: Splice, y: nat)
    requires AllApart(base, landed) && text == Merged(base, landed) && Clear(landed, c)
    requires y == c.at + Shift(landed, c.at) && y + c.remove <= |text|
    ensures AllApart(base, landed + [c]) && Apply(c.(at := y), text) == Merged(base, landed + [c])
  {
    hide Merged, Apply, Shift, Clear;
    FitsIff(base, landed, c);
    AcceptsIs(base, landed, c);
    MergeStep(base, landed, c);
    assert (landed + [c])[..|landed|] == landed;
  }

  lemma AcceptsIs(base: string, landed: seq<Splice>, c: Splice)
    ensures Accepts(base, landed, c) <==> Fits(c, base) && Clear(landed, c)
  {
  }

  lemma {:induction false} VerdictOfPrefix(commits: seq<Commit>, sheet: Sheet, values: map<int, string>, subs: seq<Submission>, n: nat, i: nat)
    requires i < n <= |subs|
    ensures Ran(commits, sheet, values, subs).verdicts[i] == Ran(commits, sheet, values, subs[..n]).verdicts[i]
    decreases |subs|
  {
    hide Turn;
    if n == |subs| {
      assert subs[..n] == subs;
    } else {
      var m := |subs| - 1;
      assert subs[..m][..n] == subs[..n];
      VerdictOfPrefix(commits, sheet, values, subs[..m], n, i);
      TurnAppends(commits, sheet, Ran(commits, sheet, values, subs[..m]), subs[m]);
    }
  }

  lemma TurnAppends(commits: seq<Commit>, sheet: Sheet, b: Batch, s: Submission)
    ensures var t := Turn(commits, sheet, b, s); |t.verdicts| == |b.verdicts| + 1 && b.verdicts <= t.verdicts
  {
  }

  /** A turn that commits on an existing row splices it where the walk says; any other leaves the rows. */
  lemma TurnEffect(commits: seq<Commit>, sheet: Sheet, b: Batch, s: Submission)
    ensures var t := Turn(commits, sheet, b, s);
            var x := s.edit.at + Shift(b.applied, s.edit.at);
            && |t.verdicts| == |b.verdicts| + 1
            && (forall key :: key in b.values && (key != s.key || !t.verdicts[|b.verdicts|]) ==>
                  key in t.values && t.values[key] == b.values[key])
            && (t.verdicts[|b.verdicts|] ==> 0 <= x && Walked(commits, sheet, s, x).At? && Clear(b.applied, s.edit))
            && (t.verdicts[|b.verdicts|] && s.key in b.values ==>
                  var y := Walked(commits, sheet, s, x).at;
                  && y + s.edit.remove <= |b.values[s.key]|
                  && t.values[s.key] == Apply(s.edit.(at := y), b.values[s.key]))
            && t.applied == if t.verdicts[|b.verdicts|] then b.applied + [s.edit] else b.applied
  {
    hide Apply, Walked, Shift;
  }

  lemma LastOfPrefix(commits: seq<Commit>, sheet: Sheet, values: map<int, string>, subs: seq<Submission>, i: nat)
    requires i < |subs|
    ensures Ran(commits, sheet, values, subs[..i + 1]) == Turn(commits, sheet, Ran(commits, sheet, values, subs[..i]), subs[i])
  {
    assert subs[..i + 1][..i] == subs[..i];
  }

  lemma SurvivorsOfPrefix(commits: seq<Commit>, sheet: Sheet, values: map<int, string>, subs: seq<Submission>)
    requires subs != [] && SurvivorsLandRight(commits, sheet, values, subs)
    ensures SurvivorsLandRight(commits, sheet, values, subs[..|subs| - 1])
  {
    hide Ran, Landed, Belongs, Walked, Shift;
    var m := |subs| - 1;
    forall i | 0 <= i < m && Survives(commits, sheet, values, subs[..m], i)
      ensures LandsRight(commits, sheet, values, subs[..m], i)
    {
      VerdictOfPrefix(commits, sheet, values, subs, m, i);
      assert LandsRight(commits, sheet, values, subs, i);
      assert subs[..m][..i] == subs[..i];
    }
  }

  /**
   * When every survivor lands right, every row holds its survivors all at once, each where
   * its author put it: the counter order, the snapshots and the commits in between leave
   * no other trace.
   */
  lemma {:induction false} RowsAreMerged(commits: seq<Commit>, sheet: Sheet, values: map<int, string>, subs: seq<Submission>, key: int)
    requires SurvivorsLandRight(commits, sheet, values, subs) && key in values
    ensures AllApart(values[key], Landed(commits, sheet, values, subs, key))
    ensures key in Ran(commits, sheet, values, subs).values
    ensures Ran(commits, sheet, values, subs).values[key] == Merged(values[key], Landed(commits, sheet, values, subs, key))
    decreases |subs|
  {
    hide Turn, AllApart, Merged, LandsRight, SurvivorsLandRight, Belongs;
    if subs == [] {
      MergedNothing(values[key]);
      assert AllApart(values[key], []) by { NoneApart(values[key]); }
    } else {
      var m := |subs| - 1;
      SurvivorsOfPrefix(commits, sheet, values, subs);
      RowsAreMerged(commits, sheet, values, subs[..m], key);
      LastMerges(commits, sheet, values, subs, key);
    }
  }

  lemma NoneApart(base: string)
    ensures AllApart(base, [])
  {
  }

  lemma LastMerges(commits: seq<Commit>, sheet: Sheet, values: map<int, string>, subs: seq<Submission>, key: int)
    requires subs != [] && SurvivorsLandRight(commits, sheet, values, subs) && key in values
    requires var front := subs[..|subs| - 1];
             var b, landed := Ran(commits, sheet, values, front), Landed(commits, sheet, values, front, key);
             AllApart(values[key], landed) && key in b.values && b.values[key] == Merged(values[key], landed)
    ensures AllApart(values[key], Landed(commits, sheet, values, subs, key))
    ensures key in Ran(commits, sheet, values, subs).values
    ensures Ran(commits, sheet, values, subs).values[key] == Merged(values[key], Landed(commits, sheet, values, subs, key))
  {
    hide Turn, AllApart, Merged, Walked, RebaseThrough, Owns, Window, Clear, Apply, Shift;
    var m := |subs| - 1;
    var s, front := subs[m], subs[..m];
    var b := Ran(commits, sheet, values, front);
    TurnEffect(commits, sheet, b, s);
    if s.key == key && Ran(commits, sheet, values, subs).verdicts[m] {
      assert LandsRight(commits, sheet, values, subs, m);
      RebaseThroughKeepsPlace(s.edit, Owns(Window(commits, sheet, s)), 0);
      TurnMerges(values[key], Landed(commits, sheet, values, front, key), b.values[key], Belongs(commits, sheet, s).splice,
                 Walked(commits, sheet, s, s.edit.at + Shift(b.applied, s.edit.at)).at);
    }
  }

  // ---- what a submitter can rely on ---------------------------------------

  /** Every commit since is recorded and known to concern other rows. */
  predicate Quiet(commits: seq<Commit>, sheet: Sheet, snap: nat, key: int) {
    forall t :: snap <= t < |commits| ==> commits[t].recorded && !Concerns(commits[t].writes, key, sheet)
  }

  predicate FreshOnOneRow(commits: seq<Commit>, sheet: Sheet, subs: seq<Submission>, key: int) {
    forall i :: 0 <= i < |subs| ==> subs[i].key == key && Quiet(commits, sheet, subs[i].snap, key)
  }

  lemma {:induction false} NothingSaid(es: seq<Entry>, at: nat, len: nat)
    requires forall t :: 0 <= t < |es| ==> es[t] == Entry(Some(ELSEWHERE), [])
    ensures EntryWalk(es, at, len) == At(at) && Owns(es) == []
  {
    if es != [] {
      NothingSaid(es[..|es| - 1], at, len);
    }
  }

  lemma QuietWindow(commits: seq<Commit>, sheet: Sheet, s: Submission, at: nat)
    requires Quiet(commits, sheet, s.snap, s.key)
    ensures EntryWalk(Window(commits, sheet, s), at, s.edit.remove) == At(at)
    ensures Belongs(commits, sheet, s) == Ok(s.edit)
  {
    hide Concerns, EntryWalk, Owns, Own;
    var es := Window(commits, sheet, s);
    forall t | 0 <= t < |es|
      ensures es[t] == Entry(Some(ELSEWHERE), [])
    {
      var c := commits[Min(s.snap, |commits|) + t];
      if Own(c.writes, s.key) != [] {
        OwnConcerns(c.writes, s.key, sheet);
        assert false;
      }
    }
    NothingSaid(es, at, s.edit.remove);
  }

  lemma {:induction false} FreshLands(commits: seq<Commit>, sheet: Sheet, values: map<int, string>, subs: seq<Submission>, key: int)
    requires FreshOnOneRow(commits, sheet, subs, key)
    ensures Landed(commits, sheet, values, subs, key) == Ran(commits, sheet, values, subs).applied
    decreases |subs|
  {
    if subs != [] {
      hide Walked, Belongs, Quiet, Turn;
      var m := |subs| - 1;
      var s := subs[m];
      FreshLands(commits, sheet, values, subs[..m], key);
      TurnEffect(commits, sheet, Ran(commits, sheet, values, subs[..m]), s);
      QuietWindow(commits, sheet, s, 0);
    }
  }

  /** A batch on one row, every member having seen the last commit that may concern the row, lands right. */
  lemma FreshBatchLandsRight(commits: seq<Commit>, sheet: Sheet, values: map<int, string>, subs: seq<Submission>, key: int)
    requires FreshOnOneRow(commits, sheet, subs, key)
    ensures SurvivorsLandRight(commits, sheet, values, subs)
  {
    hide Ran, Landed, Shift, Walked, Belongs, Quiet, EntryWalk, Window;
    forall i | 0 <= i < |subs| && Survives(commits, sheet, values, subs, i)
      ensures LandsRight(commits, sheet, values, subs, i)
    {
      var s, front := subs[i], subs[..i];
      SurvivorWasWalked(commits, sheet, values, subs, i);
      VerdictOfPrefix(commits, sheet, values, subs, i + 1, i);
      LastOfPrefix(commits, sheet, values, subs, i);
      TurnEffect(commits, sheet, Ran(commits, sheet, values, front), s);
      FreshLands(commits, sheet, values, front, key);
      var start := Start(commits, sheet, values, subs, i);
      QuietWindow(commits, sheet, s, start);
      WalkedIs(commits, sheet, s, start);
    }
  }

  lemma FreshTurn(commits: seq<Commit>, sheet: Sheet, b: Batch, s: Submission)
    requires Quiet(commits, sheet, s.snap, s.key) && |commits| <= s.snap + G.SLOTS && s.key in b.values
    ensures var t, x := Turn(commits, sheet, b, s), s.edit.at + Shift(b.applied, s.edit.at);
            && |t.verdicts| == |b.verdicts| + 1
            && (t.verdicts[|b.verdicts|] <==> Clear(b.applied, s.edit) && 0 <= x && x + s.edit.remove <= |b.values[s.key]|)
  {
    hide Apply, Shift, Clear, Walked, EntryWalk, Window, Quiet, Belongs;
    var x := s.edit.at + Shift(b.applied, s.edit.at);
    if 0 <= x {
      WalkedIs(commits, sheet, s, x);
      QuietWindow(commits, sheet, s, x);
    }
  }

  /** There the verdicts are exactly: the old value can hold the edit, and no survivor before it overlaps. */
  lemma FreshVerdicts(commits: seq<Commit>, sheet: Sheet, values: map<int, string>, subs: seq<Submission>, key: int, i: nat)
    requires FreshOnOneRow(commits, sheet, subs, key) && key in values && i < |subs| && |commits| <= subs[i].snap + G.SLOTS
    ensures Ran(commits, sheet, values, subs).verdicts[i] <==>
            Accepts(values[key], Landed(commits, sheet, values, subs[..i], key), subs[i].edit)
  {
    hide *;
    var s, front := subs[i], subs[..i];
    FreshPrefix(commits, sheet, subs, key, i);
    VerdictOfPrefix(commits, sheet, values, subs, i + 1, i);
    LastOfPrefix(commits, sheet, values, subs, i);
    FreshBatchLandsRight(commits, sheet, values, front, key);
    RowsAreMerged(commits, sheet, values, front, key);
    FreshLands(commits, sheet, values, front, key);
    FreshTurn(commits, sheet, Ran(commits, sheet, values, front), s);
    FreshAccepts(values[key], Landed(commits, sheet, values, front, key), s.edit);
  }

  lemma FreshPrefix(commits: seq<Commit>, sheet: Sheet, subs: seq<Submission>, key: int, i: nat)
    requires FreshOnOneRow(commits, sheet, subs, key) && i < |subs|
    ensures FreshOnOneRow(commits, sheet, subs[..i], key) && subs[i].key == key && Quiet(commits, sheet, subs[i].snap, key)
  {
    hide Quiet;
  }

  lemma FreshAccepts(base: string, landed: seq<Splice>, edit: Splice)
    requires AllApart(base, landed)
    ensures var x := edit.at + Shift(landed, edit.at);
            Accepts(base, landed, edit) <==> Clear(landed, edit) && 0 <= x && x + edit.remove <= |Merged(base, landed)|
  {
    hide Shift, Merged, Clear, AllApart;
    if Clear(landed, edit) {
      FitsIff(base, landed, edit);
    }
  }

  // ---- runs of batches ----------------------------------------------------

  /** What a batch commits is what it did to the rows. */
  lemma {:induction false} WroteIsDone(commits: seq<Commit>, sheet: Sheet, values: map<int, string>, subs: seq<Submission>, key: int)
    requires key in values
    ensures var b := Ran(commits, sheet, values, subs);
            && FitsAll(Own(b.wrote, key), values[key])
            && key in b.values && b.values[key] == ApplyAll(Own(b.wrote, key), values[key])
    decreases |subs|
  {
    if subs != [] {
      var m := |subs| - 1;
      var b := Ran(commits, sheet, values, subs[..m]);
      WroteIsDone(commits, sheet, values, subs[..m], key);
      TurnWrites(commits, sheet, b, subs[m], key, values[key]);
    }
  }

  lemma OwnSnoc(writes: seq<Write>, w: Write, key: int)
    ensures Own(writes + [w], key) == if w.key == key && w.landed then Own(writes, key) + [w.edit] else Own(writes, key)
  {
    assert (writes + [w])[..|writes|] == writes;
  }

  lemma TurnWrites(commits: seq<Commit>, sheet: Sheet, b: Batch, s: Submission, key: int, base: string)
    requires key in b.values && FitsAll(Own(b.wrote, key), base) && b.values[key] == ApplyAll(Own(b.wrote, key), base)
    ensures var t := Turn(commits, sheet, b, s);
            && FitsAll(Own(t.wrote, key), base)
            && key in t.values && t.values[key] == ApplyAll(Own(t.wrote, key), base)
  {
    hide Walked, Apply, Shift, Clear, Own, FitsAll, ApplyAll;
    var at := s.edit.at + Shift(b.applied, s.edit.at);
    if Clear(b.applied, s.edit) && 0 <= at && Walked(commits, sheet, s, at).At? {
      var put := s.edit.(at := Walked(commits, sheet, s, at).at);
      OwnSnoc(b.wrote, Write(s.key, put, false), key);
      OwnSnoc(b.wrote, Write(s.key, put, true), key);
      ApplyAppend(Own(b.wrote, key), [put], base);
      OneSplice(put, b.values[key]);
    }
  }

  lemma OneSplice(c: Splice, buf: string)
    ensures ApplyAll([c], buf) == Apply(c, buf) && (FitsAll([c], buf) <==> Fits(c, buf))
  {
    hide Apply;
    assert [c][1..] == [];
  }

  /** The database after batches, starting with rows and no history. */
  function Served(sheet: Sheet, values: map<int, string>, batches: seq<seq<Submission>>): Answer {
    if batches == [] then Answer(values, [], [])
    else
      var before := Served(sheet, values, batches[..|batches| - 1]);
      Submitted(before.commits, sheet, before.values, batches[|batches| - 1])
  }

  lemma EntriesSnoc(commits: seq<Commit>, c: Commit, key: int, sheet: Sheet)
    ensures Entries(commits + [c], key, sheet) == Entries(commits, key, sheet) + [EntryOf(c, key, sheet)]
  {
  }

  /** After any run of batches the history explains every row: replaying what the commits did to it gives it. */
  lemma {:induction false} HistoryExplainsRows(sheet: Sheet, values: map<int, string>, batches: seq<seq<Submission>>, key: int)
    requires key in values
    ensures var db := Served(sheet, values, batches);
            && key in db.values && Lawful(values[key], db.commits, key, sheet)
            && db.values[key] == RowAt(values[key], db.commits, key, sheet, |db.commits|)
    decreases |batches|
  {
    if batches == [] {
      assert Entries([], key, sheet)[..0] == [];
    } else {
      var n := |batches| - 1;
      var db := Served(sheet, values, batches[..n]);
      HistoryExplainsRows(sheet, values, batches[..n], key);
      CommitExplains(sheet, db, batches[n], values[key], key);
    }
  }

  lemma CommitExplains(sheet: Sheet, db: Answer, subs: seq<Submission>, base: string, key: int)
    requires key in db.values && Lawful(base, db.commits, key, sheet)
    requires db.values[key] == RowAt(base, db.commits, key, sheet, |db.commits|)
    ensures var t := Submitted(db.commits, sheet, db.values, subs);
            && key in t.values && Lawful(base, t.commits, key, sheet)
            && t.values[key] == RowAt(base, t.commits, key, sheet, |t.commits|)
  {
    hide Ran, G.Judge, G.SurfaceOf, HistoryOf, FitsAll, ApplyAll, Own, OldestSnap, Owns, Entries;
    var b, t := Ran(db.commits, sheet, db.values, subs), Submitted(db.commits, sheet, db.values, subs);
    if t.commits != db.commits {
      var c := Commit(b.wrote, true);
      WroteIsDone(db.commits, sheet, db.values, subs, key);
      AddsOne(base, db.commits, c, key, sheet);
    }
  }

  lemma AddsOne(base: string, commits: seq<Commit>, c: Commit, key: int, sheet: Sheet)
    ensures var row := RowAt(base, commits, key, sheet, |commits|);
            && (Lawful(base, commits + [c], key, sheet) <==> Lawful(base, commits, key, sheet) && FitsAll(Own(c.writes, key), row))
            && RowAt(base, commits + [c], key, sheet, |commits| + 1) == ApplyAll(Own(c.writes, key), row)
  {
    hide FitsAll, ApplyAll, Own, Owns;
    var es, e := Entries(commits, key, sheet), EntryOf(c, key, sheet);
    EntriesSnoc(commits, c, key, sheet);
    WalkSnoc(es, e, 0, 0);
    ApplyAppend(Owns(es), e.own, base);
    assert es[..|es|] == es && (es + [e])[..|es| + 1] == es + [e];
  }

  /**
   * After any run of batches, a member of the next one that was decided on an earlier version and lands
   * right takes out of its row, as the batch finds it, exactly the text its author saw.
   */
  lemma TakesWhatWasSeen(sheet: Sheet, values: map<int, string>, batches: seq<seq<Submission>>, subs: seq<Submission>, i: nat)
    requires i < |subs| && subs[i].key in values
    requires var db, s := Served(sheet, values, batches), subs[i];
             && s.snap <= |db.commits| && LandsRight(db.commits, sheet, db.values, subs, i)
             && Fits(s.edit, RowAt(values[s.key], db.commits, s.key, sheet, s.snap))
    ensures var db, s := Served(sheet, values, batches), subs[i];
            var c := Belongs(db.commits, sheet, s).splice;
            && s.key in db.values && Fits(c, db.values[s.key]) && c.insert == s.edit.insert
            && db.values[s.key][c.at..End(c)] ==
               RowAt(values[s.key], db.commits, s.key, sheet, s.snap)[s.edit.at..End(s.edit)]
  {
    hide Served, Landed, Ran, Walked, FitsAll, Owns, RebaseThrough, ApplyAll, Shift, Clear;
    var db, s := Served(sheet, values, batches), subs[i];
    var base, es := values[s.key], Entries(db.commits, s.key, sheet);
    HistoryExplainsRows(sheet, values, batches, s.key);
    VersionApart(base, es, s.snap, |es|);
    assert es[s.snap..|es|] == es[s.snap..] == Window(db.commits, sheet, s);
    RebaseThroughKeepsText(s.edit, Owns(es[s.snap..]), Version(base, es, s.snap));
    RebaseThroughKeepsPlace(s.edit, Owns(es[s.snap..]), 0);
  }

  /** An edit sent alone, over a history whose records tell the truth about its row, is refused or lands right. */
  lemma AloneLandsRight(sheet: Sheet, values: map<int, string>, commits: seq<Commit>, base: string, s: Submission)
    requires Lawful(base, commits, s.key, sheet) && s.snap <= |commits| && Fits(s.edit, RowAt(base, commits, s.key, sheet, s.snap))
    requires forall t: nat :: t < |commits| ==>
               TellsRow(commits[t], s.key, sheet, |RowAt(base, commits, s.key, sheet, t)|, s.edit.remove == 0)
    ensures SurvivorsLandRight(commits, sheet, values, [s])
  {
    hide Ran, TellsRow, Walked, Own, FitsAll, Owns, EntryWalk, Version, RebaseThrough, Entries, G.CellWalk;
    SafeIff(base, commits, s.key, sheet, s.edit.remove == 0);
    assert RingIsRight(commits, s.key, sheet, s.snap, |commits|, s.edit);
    if Survives(commits, sheet, values, [s], 0) {
      SurvivorWasWalked(commits, sheet, values, [s], 0);
      AloneStarts(commits, sheet, values, s);
      AloneWalk(commits, sheet, s);
    }
  }

  lemma AloneStarts(commits: seq<Commit>, sheet: Sheet, values: map<int, string>, s: Submission)
    ensures Start(commits, sheet, values, [s], 0) == s.edit.at && Landed(commits, sheet, values, [s][..0], s.key) == []
  {
    assert [s][..0] == [];
  }

  lemma AloneWalk(commits: seq<Commit>, sheet: Sheet, s: Submission)
    requires s.snap <= |commits|
    ensures var out := G.CellWalk(HistoryOf(commits, sheet), s.snap, |commits|, CellOf(s.key, sheet, s.edit.at, s.edit.remove), s.edit.at);
            Walked(commits, sheet, s, s.edit.at).At? ==> Walked(commits, sheet, s, s.edit.at) == out
    ensures Belongs(commits, sheet, s) == Carried(commits, s.key, sheet, s.snap, |commits|, s.edit)
  {
    hide G.CellWalk, G.FootprintOf, EntryOf, RebaseThrough, Owns;
    var es := Entries(commits, s.key, sheet);
    assert es[s.snap..|commits|] == es[s.snap..];
    if |commits| == s.snap {
      NoWalk(HistoryOf(commits, sheet), s.snap, CellOf(s.key, sheet, s.edit.at, s.edit.remove), s.edit.at, s.edit.remove);
    }
  }
}
