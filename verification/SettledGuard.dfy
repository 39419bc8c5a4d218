/**
 * An action whose sub-edit was carried forward commits with its byte range settled: the
 * guard then skips every overlap, and what protects the action is the carrying walk alone.
 * This says exactly which actions that is enough for, and over which histories.
 */
module SettledGuard {
  import opened Options
  import S = SubEdit
  import opened RecordTruth
  import opened RecordWalk
  import opened GuardRing

  /** The walk found an offset and the guard let the commit through. */
  predicate Passes(h: History, snap: nat, mine: seq<Touch>, cell: CellEdit) {
    Rebased(h, snap, cell).At? && Judge(h, snap, SurfaceOf(mine, true)) == Clear
  }

  /** The walk takes the touch to be on the rebased cell: it compares bits, and the key. */
  predicate Seen(t: Touch, cell: CellEdit) {
    && t.table % 64 == cell.table % 64 && t.key == Some(cell.key)
    && t.cols.Some? && t.cols.value != {} && forall c :: c in t.cols.value ==> c % 64 == cell.col % 64
  }

  /** Bytes of the rebased cell inside the rebased range; a bare point at its end does not move with it. */
  predicate Within(t: Touch, cell: CellEdit) {
    && Seen(t, cell) && t.range.Some?
    && cell.at <= t.range.value.0 <= t.range.value.1 <= cell.at + cell.len
    && (t.range.value.0 == cell.at + cell.len ==> cell.len == 0)
  }

  /** Ranges run forward and no more is removed than they hold. */
  predicate WellFormed(ts: seq<Touch>) {
    forall i :: 0 <= i < |ts| && ts[i].range.Some? ==> Sized(ts[i])
  }

  predicate Sized(t: Touch)
    requires t.range.Some?
  {
    t.range.value.0 <= t.range.value.1 && 0 <= t.range.value.1 - t.range.value.0 + t.delta
  }

  ghost predicate SharesCell(a: Touch, b: Touch) {
    && a.table == b.table
    && (a.key.None? || b.key.None? || a.key == b.key)
    && (a.shard.None? || b.shard.None? || a.shard == b.shard)
    && exists c: nat :: HasCol(a, c) && HasCol(b, c)
  }

  // ---- what the statements did --------------------------------------------

  /** The splice a statement made; what it inserted does not matter here. */
  function SpliceOf(t: Touch): S.Splice
    requires t.range.Some? && Sized(t)
  {
    var (lo, hi) := t.range.value;
    S.Splice(lo, hi - lo, seq(hi - lo + t.delta, _ => ' '))
  }

  /** The splices of the statements that may concern the bytes of `b`. */
  ghost function Own(stmts: seq<Touch>, b: Touch): seq<S.Splice>
    requires WellFormed(stmts)
  {
    if stmts == [] then []
    else
      var front, a := Own(stmts[..|stmts| - 1], b), stmts[|stmts| - 1];
      if SharesCell(a, b) && a.range.Some? then front + [SpliceOf(a)] else front
  }

  /** The touched bytes as an edit that would remove them. */
  function Bytes(b: Touch): S.Splice
    requires b.range.Some? && b.range.value.0 <= b.range.value.1
  {
    S.Splice(b.range.value.0, b.range.value.1 - b.range.value.0, "")
  }

  /**
   * Statement `i` wrote bytes the action touched, as they lay when it ran: carried there
   * through every earlier statement, those of its own commit included.
   */
  ghost predicate Strikes(stmts: seq<Touch>, i: nat, b: Touch)
    requires WellFormed(stmts) && i < |stmts| && WellFormed([b])
  {
    && SharesCell(stmts[i], b)
    && (stmts[i].range.Some? && b.range.Some? ==>
          assert b == [b][0];
          match S.RebaseThrough(Bytes(b), Own(stmts[..i], b))
          case Ok(r) => S.Rebase(r, SpliceOf(stmts[i])).Err?
          case Err(_) => false)
  }

  ghost predicate Struck(stmts: seq<Touch>, b: Touch)
    requires WellFormed(stmts) && WellFormed([b])
  {
    exists i :: 0 <= i < |stmts| && Strikes(stmts, i, b)
  }

  /** All statements of the commits from `i` up to `v`. */
  function Statements(wrote: seq<seq<Touch>>, i: nat, v: nat): seq<Touch>
    requires i <= v <= |wrote|
    decreases v
  {
    if v == i then [] else Statements(wrote, i, v - 1) + wrote[v - 1]
  }

  ghost predicate AllFormed(wrote: seq<seq<Touch>>) {
    forall t :: 0 <= t < |wrote| ==> WellFormed(wrote[t])
  }

  lemma {:induction false} StatementsFormed(wrote: seq<seq<Touch>>, i: nat, v: nat)
    requires AllFormed(wrote) && i <= v <= |wrote|
    ensures WellFormed(Statements(wrote, i, v))
    decreases v
  {
    if i < v {
      StatementsFormed(wrote, i, v - 1);
    }
  }

  /** The history is what the commits published. */
  ghost predicate Published(h: History, wrote: seq<seq<Touch>>) {
    Recorded(h, wrote) && AllFormed(wrote)
  }

  // ---- what the records say -----------------------------------------------

  /** What the walk for a cell makes of a commit. */
  function RecordFor(fp: Footprint, cell: CellEdit): Option<S.Written> {
    if Skips(fp, cell) then Some(ELSEWHERE)
    else match fp.range
      case None => None
      case Some((lo, hi)) => Some(S.Written(lo, hi, fp.delta))
  }

  ghost function EntryFor(fp: Option<Footprint>, writes: seq<Touch>, b: Touch, cell: CellEdit): Entry
    requires WellFormed(writes)
  {
    Entry(match fp case None => None case Some(f) => RecordFor(f, cell), Own(writes, b))
  }

  ghost function EntriesFor(h: History, wrote: seq<seq<Touch>>, b: Touch, cell: CellEdit): seq<Entry>
    requires |h| == |wrote| && AllFormed(wrote)
  {
    seq(|h|, t requires 0 <= t < |h| => EntryFor(h[t], wrote[t], b, cell))
  }

  /** The edit removes nothing. */
  predicate Bare(cell: CellEdit) {
    cell.len == 0
  }

  /** The commit's record tells the truth about the bytes of `b`, to an edit of the cell's kind. */
  ghost predicate TellsTouch(fp: Option<Footprint>, writes: seq<Touch>, b: Touch, cell: CellEdit)
    requires WellFormed(writes)
  {
    TellsAlways(EntryFor(fp, writes, b, cell), Bare(cell))
  }

  /** Every record of the window does. */
  ghost predicate Truthful(h: History, wrote: seq<seq<Touch>>, snap: nat, b: Touch, cell: CellEdit)
    requires Published(h, wrote)
  {
    forall u :: snap <= u < |h| ==> TellsTouch(h[u], wrote[u], b, cell)
  }

  lemma PublishedOrdered(h: History, wrote: seq<seq<Touch>>, b: Touch, cell: CellEdit)
    requires Published(h, wrote)
    ensures AllOrdered(EntriesFor(h, wrote, b, cell))
  {
    forall u | 0 <= u < |h|
      ensures Ordered(EntriesFor(h, wrote, b, cell)[u])
    {
      if h[u].Some? && h[u].value.range.Some? {
        assert RangeOf(wrote[u]).Some? && wrote[u][0].range.Some? && Sized(wrote[u][0]);
      }
    }
  }

  /** The walk over the footprints is the walk over what they say. */
  lemma {:induction false} WalkIsSaid(h: History, wrote: seq<seq<Touch>>, b: Touch, cell: CellEdit, i: nat, v: nat, here: nat)
    requires Published(h, wrote) && i <= v <= |h|
    ensures var out, said := CellWalk(h, i, v, cell, here), EntryWalk(EntriesFor(h, wrote, b, cell)[i..v], here, cell.len);
            (out.At? <==> said.At?) && (out.At? ==> out == said)
    decreases v - i
  {
    hide Own, Skips, S.RingStep, Published;
    var es := EntriesFor(h, wrote, b, cell) by { assert Published(h, wrote); PublishedIs(h, wrote); }
    if i == v {
      assert es[i..v] == [];
    } else {
      var e := es[i];
      assert es[i..v] == [e] + es[i + 1..v];
      var out := EntryStep(e, here, cell.len);
      WalkHead(e, es[i + 1..v], here, cell.len);
      if out.At? {
        WalkIsSaid(h, wrote, b, cell, i + 1, v, out.at);
      }
      SkipIsElsewhere(h[i], cell, here, e.record);
    }
  }

  lemma PublishedIs(h: History, wrote: seq<seq<Touch>>)
    requires Published(h, wrote)
    ensures |h| == |wrote| && AllFormed(wrote)
  {
  }

  lemma SkipIsElsewhere(fp: Option<Footprint>, cell: CellEdit, here: nat, record: Option<S.Written>)
    requires record == match fp case None => None case Some(f) => RecordFor(f, cell)
    ensures var out := match fp case None => S.Unanswerable case Some(f) => CellStep(f, cell, here);
            var said := EntryStep(Entry(record, []), here, cell.len);
            (out.At? <==> said.At?) && (out.At? ==> out == said)
  {
  }

  lemma {:induction false} WalkHead(e: Entry, es: seq<Entry>, at: nat, len: nat)
    ensures EntryWalk([e] + es, at, len) ==
            match EntryStep(e, at, len) case At(y) => EntryWalk(es, y, len) case other => other
    decreases |es|
  {
    hide EntryStep;
    var all := [e] + es;
    if es == [] {
      assert all == [] + [e];
      WalkSnoc([], e, at, len);
    } else {
      var m := |es| - 1;
      assert all[..|all| - 1] == [e] + es[..m];
      WalkHead(e, es[..m], at, len);
    }
  }

  lemma {:induction false} OwnAppend(a: seq<Touch>, c: seq<Touch>, b: Touch)
    requires WellFormed(a) && WellFormed(c)
    ensures WellFormed(a + c) && Own(a + c, b) == Own(a, b) + Own(c, b)
    decreases |c|
  {
    hide SharesCell;
    if c == [] {
      assert a + c == a;
    } else {
      var m := |c| - 1;
      OwnAppend(a, c[..m], b);
      assert (a + c)[..|a + c| - 1] == a + c[..m];
    }
  }

  lemma {:induction false} StatementsOwn(h: History, wrote: seq<seq<Touch>>, b: Touch, cell: CellEdit, i: nat, v: nat)
    requires Published(h, wrote) && i <= v <= |h|
    ensures WellFormed(Statements(wrote, i, v))
    ensures Own(Statements(wrote, i, v), b) == Owns(EntriesFor(h, wrote, b, cell)[i..v])
    decreases v
  {
    hide Own, RecordFor;
    var es := EntriesFor(h, wrote, b, cell);
    StatementsFormed(wrote, i, v);
    if i == v {
      assert es[i..v] == [];
      NoneOwn(b);
    } else {
      StatementsOwn(h, wrote, b, cell, i, v - 1);
      OwnAppend(Statements(wrote, i, v - 1), wrote[v - 1], b);
      assert es[i..v] == es[i..v - 1] + [es[v - 1]];
      WalkSnoc(es[i..v - 1], es[v - 1], 0, 0);
    }
  }

  lemma NoneOwn(b: Touch)
    ensures WellFormed([]) && Own([], b) == []
  {
  }

  // ---- inside the range: the walk is enough -------------------------------

  lemma WriteIsSeen(writes: seq<Touch>, i: nat, b: Touch, cell: CellEdit)
    requires i < |writes| && Seen(b, cell) && SharesCell(writes[i], b)
    ensures !Skips(FootprintOf(writes), cell)
  {
    var c :| HasCol(writes[i], c) && HasCol(b, c);
    ColsCover(writes, i, c);
    assert writes[i].table % 64 in Tables(writes);
    if AllNamed(writes) {
      assert writes[i].key.value in NamedKeys(writes);
    }
  }

  lemma {:induction false} WalkPasses(h: History, i: nat, u: nat, n: nat, cell: CellEdit, here: nat)
    requires i <= u < n <= |h| && CellWalk(h, i, n, cell, here).At?
    ensures CellWalk(h, i, u, cell, here).At? && h[u].Some?
    ensures CellStep(h[u].value, cell, CellWalk(h, i, u, cell, here).at).At?
    decreases u - i
  {
    hide CellStep;
    if i < u {
      WalkPasses(h, i + 1, u, n, cell, CellStep(h[i].value, cell, here).at);
    }
  }

  lemma {:induction false} StatementOf(wrote: seq<seq<Touch>>, i: nat, v: nat, k: nat) returns (u: nat, j: nat)
    requires i <= v <= |wrote| && k < |Statements(wrote, i, v)|
    ensures i <= u < v && j < |wrote[u]| && wrote[u][j] == Statements(wrote, i, v)[k]
    decreases v
  {
    var front := Statements(wrote, i, v - 1);
    if k < |front| {
      u, j := StatementOf(wrote, i, v - 1, k);
    } else {
      u, j := v - 1, k - |front|;
    }
  }

  /** No statement of the window rewrote the cell as a whole. */
  lemma NoRewrite(h: History, wrote: seq<seq<Touch>>, snap: nat, b: Touch, cell: CellEdit, v: nat, k: nat)
    requires Published(h, wrote) && snap <= v <= |h| && CellWalk(h, snap, v, cell, cell.at).At? && Seen(b, cell)
    requires k < |Statements(wrote, snap, v)| && SharesCell(Statements(wrote, snap, v)[k], b)
    ensures Statements(wrote, snap, v)[k].range.Some?
  {
    hide SharesCell, Skips, Seen;
    var u, j := StatementOf(wrote, snap, v, k);
    WalkPasses(h, snap, u, v, cell, cell.at);
    WriteIsSeen(wrote[u], j, b, cell);
    assert RangeOf(wrote[u]).Some?;
  }

  lemma {:induction false} NotStruck(stmts: seq<Touch>, i: nat, b: Touch)
    requires WellFormed(stmts) && i < |stmts| && WellFormed([b]) && b.range.Some? && b.range.value.0 <= b.range.value.1
    requires SharesCell(stmts[i], b) ==> stmts[i].range.Some?
    requires S.RebaseThrough(Bytes(b), Own(stmts, b)).Ok?
    ensures !Strikes(stmts, i, b)
  {
    hide SharesCell, S.Rebase;
    if SharesCell(stmts[i], b) {
      assert stmts == stmts[..i + 1] + stmts[i + 1..] && stmts[..i + 1][..i] == stmts[..i];
      assert WellFormed(stmts[..i + 1]) && WellFormed(stmts[i + 1..]);
      OwnAppend(stmts[..i + 1], stmts[i + 1..], b);
      S.RebaseAppend(Bytes(b), Own(stmts[..i + 1], b), Own(stmts[i + 1..], b));
      S.RebaseSnoc(Bytes(b), Own(stmts[..i], b), SpliceOf(stmts[i]));
    }
  }

  /** A touch inside the rebased range is carried with it. */
  lemma WithinIsCarried(h: History, wrote: seq<seq<Touch>>, snap: nat, b: Touch, cell: CellEdit)
    requires Published(h, wrote) && snap <= |h| && CellWalk(h, snap, |h|, cell, cell.at).At?
    requires Within(b, cell) && Truthful(h, wrote, snap, b, cell)
    ensures WellFormed(Statements(wrote, snap, |h|))
    ensures S.RebaseThrough(Bytes(b), Own(Statements(wrote, snap, |h|), b)).Ok?
  {
    hide Own, S.RebaseThrough, CellWalk, EntryWalk, Skips, TellsAlways, EntryFor;
    var es := EntriesFor(h, wrote, b, cell);
    StatementsOwn(h, wrote, b, cell, snap, |h|);
    PublishedOrdered(h, wrote, b, cell);
    WalkIsSaid(h, wrote, b, cell, snap, |h|, cell.at);
    forall t: nat | snap <= t < |h|
      ensures TellsAlways(es[t], Bare(cell))
    {
      assert TellsTouch(h[t], wrote[t], b, cell);
    }
    var me := S.Splice(cell.at, cell.len, "");
    ToldAnywhere(es, Bare(cell), snap, |h|, me);
    if cell.len > 0 {
      PartCarried(me, Bytes(b), Owns(es[snap..|h|]));
    } else {
      assert Bytes(b) == me;
    }
  }

  lemma WithinIsGuarded(h: History, wrote: seq<seq<Touch>>, snap: nat, mine: seq<Touch>, cell: CellEdit, j: nat)
    requires WellFormed(mine) && j < |mine| && Within(mine[j], cell)
    requires Published(h, wrote) && Passes(h, snap, mine, cell) && Truthful(h, wrote, snap, mine[j], cell) && snap <= |h|
    ensures WellFormed(Statements(wrote, snap, |h|)) && !Struck(Statements(wrote, snap, |h|), mine[j])
  {
    hide SharesCell, Own, S.RebaseThrough, Truthful, Published, Judge, SurfaceOf, CellWalk, Strikes;
    var b, stmts := mine[j], Statements(wrote, snap, |h|) by { PublishedIs(h, wrote); }
    PublishedIs(h, wrote);
    assert CellWalk(h, snap, |h|, cell, cell.at).At? by { WalkOf(h, snap, cell); }
    WithinIsCarried(h, wrote, snap, b, cell);
    forall i | 0 <= i < |stmts|
      ensures !Strikes(stmts, i, b)
    {
      if SharesCell(stmts[i], b) {
        NoRewrite(h, wrote, snap, b, cell, |h|, i);
      }
      NotStruck(stmts, i, b);
    }
  }

  lemma WalkOf(h: History, snap: nat, cell: CellEdit)
    requires snap <= |h| && Rebased(h, snap, cell).At?
    ensures CellWalk(h, snap, |h|, cell, cell.at) == Rebased(h, snap, cell)
  {
  }

  lemma NoColumnIsSafe(stmts: seq<Touch>, b: Touch)
    requires b.cols == Some({}) && WellFormed(stmts) && WellFormed([b])
    ensures !Struck(stmts, b)
  {
  }

  // ---- anything else: a commit that slips through -------------------------

  /** The action passes and a statement of the window wrote bytes touch `j` is about, though every record of
      the window tells the truth about them. */
  ghost predicate Slips(h: History, wrote: seq<seq<Touch>>, snap: nat, mine: seq<Touch>, cell: CellEdit, j: nat)
    requires WellFormed(mine) && j < |mine|
  {
    && Published(h, wrote) && snap <= |h| && Passes(h, snap, mine, cell)
    && (Seen(mine[j], cell) ==> Truthful(h, wrote, snap, mine[j], cell))
    && WellFormed(Statements(wrote, snap, |h|)) && Struck(Statements(wrote, snap, |h|), mine[j])
  }

  lemma Alone(a: Touch, c: nat)
    requires a.key.Some? && a.cols == Some({c})
    ensures var fp := FootprintOf([a]);
            && !fp.kind.Empty? && fp.tables == {a.table % 64} && fp.keys == Some({a.key.value})
            && fp.cols == {c % 64} && fp.range == a.range && fp.delta == a.delta
  {
    var ts := [a];
    assert ts[1..] == [];
    assert ts[0].key.value in NamedKeys(ts);
    assert NamedKeys(ts) == {a.key.value};
    assert Tables(ts) == {a.table % 64};
    assert NamedCols(ts) == {c % 64};
    assert RangeOf(ts) == a.range;
    assert DeltaOf(ts) == a.delta + DeltaOf([]);
  }

  /** A commit of one statement on one cell tells the truth, as far as insertions need it. */
  lemma AloneTells(a: Touch, c: nat, b: Touch, cell: CellEdit)
    requires a.key.Some? && a.cols == Some({c}) && WellFormed([a]) && SharesCell(a, b) && Seen(b, cell) && a.range.Some?
    requires cell.len == 0 ==> a.range.value.0 == a.range.value.1 || a.delta == 0
    ensures TellsTouch(Some(FootprintOf([a])), [a], b, cell)
  {
    hide SharesCell, Tells, TellsPoints, FootprintOf, Skips;
    Alone(a, c);
    WriteIsSeen([a], 0, b, cell);
    assert [a][0] == a && Sized(a);
    assert [a][..0] == [] && Own([a], b) == [] + [SpliceOf(a)];
    assert [] + [SpliceOf(a)] == [SpliceOf(a)];
    var e := EntryFor(Some(FootprintOf([a])), [a], b, cell);
    forall n: nat
      ensures EntryTells(e, n, Bare(cell))
    {
      assert S.Record(SpliceOf(a)) == S.Written(a.range.value.0, a.range.value.1, a.delta);
      if cell.len == 0 {
        SinglePointsTell(SpliceOf(a), n);
      } else {
        SingleTells(SpliceOf(a), n);
      }
    }
  }

  lemma PassesOne(a: Touch, mine: seq<Touch>, cell: CellEdit)
    requires CellStep(FootprintOf([a]), cell, cell.at).At?
    ensures Passes([Some(FootprintOf([a]))], 0, mine, cell)
  {
    hide FootprintOf, CellStep;
    var h: History := [Some(FootprintOf([a]))];
    assert CellWalk(h, 1, 1, cell, CellStep(FootprintOf([a]), cell, cell.at).at).At?;
    assert Rebased(h, 0, cell).At?;
    assert !Hits(h[0].value, SurfaceOf(mine, true));
    assert Walk(h, 0, SurfaceOf(mine, true)) == Clear;
  }

  lemma OneStatement(a: Touch)
    ensures Statements([[a]], 0, 1) == [a]
  {
    assert Statements([[a]], 0, 0) == [] && [] + [a] == [a];
  }

  /** A history of one commit with one statement, which the walk lets pass. */
  lemma OneSlips(a: Touch, mine: seq<Touch>, cell: CellEdit, j: nat)
    requires WellFormed(mine) && j < |mine| && WellFormed([a]) && SharesCell(a, mine[j])
    requires CellStep(FootprintOf([a]), cell, cell.at).At?
    requires Seen(mine[j], cell) ==> TellsTouch(Some(FootprintOf([a])), [a], mine[j], cell)
    requires a.range.Some? && mine[j].range.Some? ==>
               mine[j].range.value.0 < a.range.value.1 && a.range.value.0 < mine[j].range.value.1
    ensures Slips([Some(FootprintOf([a]))], [[a]], 0, mine, cell, j)
  {
    hide FootprintOf, SharesCell, CellStep, Seen, TellsTouch;
    PassesOne(a, mine, cell);
    hide Passes;
    OneStatement(a);
    var b := mine[j];
    assert [a][..0] == [] && [b][0] == b;
    if a.range.Some? && b.range.Some? {
      assert [a][0] == a && Sized(a) && Sized(b);
      assert S.RebaseThrough(Bytes(b), Own([a][..0], b)) == S.Ok(Bytes(b));
      assert S.Rebase(Bytes(b), SpliceOf(a)).Err?;
    }
    assert Strikes([a], 0, b);
  }

  /** Off the cell, a rewrite of the touched row slips through. */
  lemma OffCellSlips(mine: seq<Touch>, cell: CellEdit, j: nat) returns (a: Touch)
    requires WellFormed(mine) && j < |mine| && mine[j].cols != Some({}) && !Seen(mine[j], cell)
    ensures Slips([Some(FootprintOf([a]))], [[a]], 0, mine, cell, j)
  {
    var b := mine[j];
    var c: nat := cell.col + 1;
    if b.cols.Some? {
      if d :| d in b.cols.value && d % 64 != cell.col % 64 {
        c := d;
      } else {
        assert b.cols.value != {};
        var d: nat :| d in b.cols.value;
        c := d;
      }
    }
    var k: nat := if b.key.Some? then b.key.value else cell.key + 1;
    a := Touch(b.table, Some(k), Some({c}), None, b.shard, 0);
    Alone(a, c);
    assert HasCol(a, c) && HasCol(b, c);
    assert CellStep(FootprintOf([a]), cell, cell.at).At?;
    assert WellFormed([a]);
    hide *;
    OneSlips(a, mine, cell, j);
  }

  /** On the cell but not in one stretch of the range, some edit beside the range slips through. */
  lemma OnCellSlips(mine: seq<Touch>, cell: CellEdit, j: nat) returns (h: History, wrote: seq<seq<Touch>>)
    requires WellFormed(mine) && j < |mine| && Seen(mine[j], cell) && !Within(mine[j], cell)
    ensures Slips(h, wrote, 0, mine, cell, j)
  {
    var b, end := mine[j], cell.at + cell.len;
    var c: nat :| c in b.cols.value;
    var a := Touch(b.table, b.key, Some({c}), Some((end, end)), b.shard, 0);
    if b.range.Some? {
      var (lo, hi) := b.range.value;
      assert Sized(b);
      if lo == hi && (lo == 0 || lo == end) {
        h, wrote := PointSlips(mine, cell, j, c);
        return;
      }
      a := a.(range := Some(if lo == hi then (lo - 1, lo + 1)
                            else if lo < cell.at then (lo, if hi < cell.at then hi else cell.at)
                            else (if lo < end then end else lo, hi)));
    }
    Alone(a, c);
    assert HasCol(a, c) && HasCol(b, c);
    assert CellStep(FootprintOf([a]), cell, cell.at).At? && WellFormed([a]) && SharesCell(a, b);
    AloneTells(a, c, b, cell);
    OneSlips(a, mine, cell, j);
    h, wrote := [Some(FootprintOf([a]))], [[a]];
  }

  /** Two commits of one statement each, both on the rebased cell. */
  lemma TwoSlip(a: Touch, e: Touch, c: nat, mine: seq<Touch>, cell: CellEdit, j: nat)
    requires WellFormed(mine) && j < |mine| && WellFormed([a]) && WellFormed([e]) && Seen(mine[j], cell)
    requires a.key.Some? && a.cols == Some({c}) && e.key.Some? && e.cols == Some({c})
    requires a.range.Some? && e.range.Some? && mine[j].range.Some? && SharesCell(a, mine[j]) && SharesCell(e, mine[j])
    requires a.range.value.0 == a.range.value.1 && e.delta == 0
    requires CellStep(FootprintOf([a]), cell, cell.at).At?
    requires CellStep(FootprintOf([e]), cell, CellStep(FootprintOf([a]), cell, cell.at).at).At?
    requires assert Sized(mine[j]) && Sized([a][0]) && Sized([e][0]);
             var first := S.Rebase(Bytes(mine[j]), SpliceOf(a));
             first.Ok? && S.Rebase(first.splice, SpliceOf(e)).Err?
    ensures Slips([Some(FootprintOf([a])), Some(FootprintOf([e]))], [[a], [e]], 0, mine, cell, j)
  {
    hide FootprintOf, SharesCell, CellStep, Seen, TellsTouch, S.Rebase;
    var b := mine[j];
    var h: History := [Some(FootprintOf([a])), Some(FootprintOf([e]))];
    AloneTells(a, c, b, cell);
    AloneTells(e, c, b, cell);
    var x := CellStep(FootprintOf([a]), cell, cell.at).at;
    var y := CellStep(FootprintOf([e]), cell, x).at;
    assert CellWalk(h, 2, 2, cell, y) == S.At(y);
    assert CellWalk(h, 1, 2, cell, x) == S.At(y);
    assert Rebased(h, 0, cell).At?;
    assert Walk(h, 0, SurfaceOf(mine, true)) == Clear;
    var wrote := [[a], [e]];
    assert Statements(wrote, 0, 2) == [a, e] by {
      assert Statements(wrote, 0, 0) == [];
      assert Statements(wrote, 0, 1) == [] + [a] == [a];
      assert Statements(wrote, 0, 2) == [a] + [e] == [a, e];
    }
    assert Strikes([a, e], 1, b) by {
      assert [a, e][..1] == [a] && [a][..0] == [] && [b][0] == b;
      assert Own([a], b) == [] + [SpliceOf(a)] == [SpliceOf(a)];
      S.RebaseSnoc(Bytes(b), [], SpliceOf(a));
      assert [] + [SpliceOf(a)] == [SpliceOf(a)];
    }
    assert Published(h, wrote);
  }

  /** A bare point at the front of the value, or at the end of the range, is pushed and then surrounded. */
  lemma PointSlips(mine: seq<Touch>, cell: CellEdit, j: nat, c: nat) returns (h: History, wrote: seq<seq<Touch>>)
    requires WellFormed(mine) && j < |mine| && Seen(mine[j], cell) && c in mine[j].cols.value && mine[j].range.Some?
    requires var (lo, hi) := mine[j].range.value;
             lo == hi && ((lo == 0 && cell.at > 0) || (lo == cell.at + cell.len && cell.len > 0))
    ensures Slips(h, wrote, 0, mine, cell, j)
  {
    var b := mine[j];
    var p := b.range.value.0;
    var first := Touch(b.table, b.key, Some({c}), Some((p, p)), b.shard, 1);
    var second := Touch(b.table, b.key, Some({c}), Some((p, p + 2)), b.shard, 0);
    Alone(first, c);
    Alone(second, c);
    assert HasCol(first, c) && HasCol(second, c) && HasCol(b, c);
    TwoSlip(first, second, c, mine, cell, j);
    h, wrote := [Some(FootprintOf([first])), Some(FootprintOf([second]))], [[first], [second]];
  }

  // ---- which actions ------------------------------------------------------

  /** Over every history whose records tell the truth about its bytes, a passing action's touch was not struck. */
  ghost predicate GuardedTouch(mine: seq<Touch>, cell: CellEdit, j: nat)
    requires WellFormed(mine) && j < |mine|
  {
    forall h: History, wrote: seq<seq<Touch>>, snap: nat :: !Slips(h, wrote, snap, mine, cell, j)
  }

  /**
   * A rebased action is guarded, against every history of true records, exactly when everything it
   * touched lies in the rebased cell and in the rebased range.
   */
  lemma SettledIsGuardedIff(mine: seq<Touch>, cell: CellEdit)
    requires WellFormed(mine)
    ensures (forall j: nat :: j < |mine| ==> GuardedTouch(mine, cell, j)) <==>
            forall j: nat :: j < |mine| ==> mine[j].cols == Some({}) || Within(mine[j], cell)
  {
    hide GuardedTouch, Within;
    forall j: nat | j < |mine|
      ensures GuardedTouch(mine, cell, j) <==> mine[j].cols == Some({}) || Within(mine[j], cell)
    {
      TouchIsGuardedIff(mine, cell, j);
    }
  }

  lemma TouchIsGuardedIff(mine: seq<Touch>, cell: CellEdit, j: nat)
    requires WellFormed(mine) && j < |mine|
    ensures GuardedTouch(mine, cell, j) <==> mine[j].cols == Some({}) || Within(mine[j], cell)
  {
    hide Slips, Seen, Within;
    if mine[j].cols == Some({}) || Within(mine[j], cell) {
      forall h: History, wrote: seq<seq<Touch>>, snap: nat
        ensures !Slips(h, wrote, snap, mine, cell, j)
      {
        NeverSlips(h, wrote, snap, mine, cell, j);
      }
    } else if Seen(mine[j], cell) {
      var h, wrote := OnCellSlips(mine, cell, j);
      assert Slips(h, wrote, 0, mine, cell, j);
    } else {
      var a := OffCellSlips(mine, cell, j);
      assert Slips([Some(FootprintOf([a]))], [[a]], 0, mine, cell, j);
    }
  }

  lemma NeverSlips(h: History, wrote: seq<seq<Touch>>, snap: nat, mine: seq<Touch>, cell: CellEdit, j: nat)
    requires WellFormed(mine) && j < |mine| && (mine[j].cols == Some({}) || Within(mine[j], cell))
    ensures !Slips(h, wrote, snap, mine, cell, j)
  {
    hide Struck, Truthful, Published, Passes, Statements;
    if Slips(h, wrote, snap, mine, cell, j) {
      PublishedIs(h, wrote);
      if mine[j].cols == Some({}) {
        NoColumnIsSafe(Statements(wrote, snap, |h|), mine[j]);
      } else {
        WithinIsGuarded(h, wrote, snap, mine, cell, j);
      }
      assert false;
    }
  }

  // ---- which histories ----------------------------------------------------

  /** An edit of the cell at another place, and what it touches. */
  function EditAt(cell: CellEdit, me: S.Splice): CellEdit {
    cell.(at := me.at, len := me.remove)
  }

  function TouchAt(cell: CellEdit, at: nat, len: nat): Touch {
    Touch(cell.table, Some(cell.key), Some({cell.col}), Some((at, at + len)), None, 0)
  }

  /** An edit walked from version `i` to version `v` is refused, or no statement struck it and it is where
      the statements carried it. */
  ghost predicate Protects(h: History, wrote: seq<seq<Touch>>, cell: CellEdit, i: nat, v: nat, me: S.Splice)
    requires Published(h, wrote) && i <= v <= |h|
  {
    StatementsFormed(wrote, i, v);
    var out, stmts, b := CellWalk(h, i, v, EditAt(cell, me), me.at), Statements(wrote, i, v), TouchAt(cell, me.at, me.remove);
    out.At? ==> !Struck(stmts, b) && S.RebaseThrough(me, Own(stmts, b)) == S.Ok(me.(at := out.at))
  }

  lemma {:induction false} OwnSame(stmts: seq<Touch>, a: Touch, b: Touch)
    requires WellFormed(stmts) && b == a.(range := b.range)
    ensures Own(stmts, a) == Own(stmts, b)
  {
    if stmts != [] {
      OwnSame(stmts[..|stmts| - 1], a, b);
      assert forall c: nat :: HasCol(a, c) <==> HasCol(b, c);
    }
  }

  /** An edit that is carried to where the walk says was not struck on the way. */
  lemma RightIsProtected(h: History, wrote: seq<seq<Touch>>, cell: CellEdit, i: nat, v: nat, me: S.Splice)
    requires Published(h, wrote) && i <= v <= |h|
    ensures Protects(h, wrote, cell, i, v, me) <==>
            WalkIsRight(EntriesFor(h, wrote, TouchAt(cell, 0, 0), cell)[i..v], me)
  {
    hide Own, CellWalk, EntryWalk, S.RebaseThrough, Owns, EntryFor, Statements, SharesCell, Strikes;
    var b, edit := TouchAt(cell, me.at, me.remove), EditAt(cell, me);
    StatementsOwn(h, wrote, TouchAt(cell, 0, 0), cell, i, v);
    WalkIsSaid(h, wrote, TouchAt(cell, 0, 0), edit, i, v, me.at);
    SameEntries(h, wrote, TouchAt(cell, 0, 0), cell, me);
    var stmts := Statements(wrote, i, v);
    OwnSame(stmts, TouchAt(cell, 0, 0), b);
    if CellWalk(h, i, v, edit, me.at).At? && S.RebaseThrough(me, Own(stmts, b)).Ok? {
      TextCarriesNothing(me, "", Own(stmts, b));
      assert Bytes(b) == me.(insert := "");
      forall k | 0 <= k < |stmts|
        ensures !Strikes(stmts, k, b)
      {
        if SharesCell(stmts[k], b) {
          NoRewrite(h, wrote, i, b, edit, v, k);
        }
        NotStruck(stmts, k, b);
      }
    }
  }

  /**
   * For every history: the walk protects every edit of a cell, from any version to any later one,
   * exactly when the record of each commit tells the truth about the cell.
   */
  lemma HistoryProtectsIff(h: History, wrote: seq<seq<Touch>>, cell: CellEdit)
    requires Published(h, wrote)
    ensures (forall i: nat, v: nat, me: S.Splice ::
               i <= v <= |h| && (me.remove == 0 <==> Bare(cell)) ==> Protects(h, wrote, cell, i, v, me)) <==>
            Truthful(h, wrote, 0, TouchAt(cell, 0, 0), cell)
  {
    var b, bare := TouchAt(cell, 0, 0), Bare(cell);
    var es := EntriesFor(h, wrote, b, cell);
    hide Protects, WalkIsRight, TellsAlways, EntryFor;
    PublishedOrdered(h, wrote, b, cell);
    NeverMisleadsAnywhereIff(es, bare);
    forall i: nat, v: nat, me: S.Splice | i <= v <= |h|
      ensures Protects(h, wrote, cell, i, v, me) <==> WalkIsRight(es[i..v], me)
    {
      RightIsProtected(h, wrote, cell, i, v, me);
    }
    forall u: nat | u < |h|
      ensures TellsTouch(h[u], wrote[u], b, cell) <==> TellsAlways(es[u], bare)
    {
    }
    hide TellsTouch;
  }

  lemma SameEntries(h: History, wrote: seq<seq<Touch>>, b: Touch, cell: CellEdit, me: S.Splice)
    requires Published(h, wrote)
    ensures EntriesFor(h, wrote, b, EditAt(cell, me)) == EntriesFor(h, wrote, b, cell)
  {
    hide Own;
    forall t | 0 <= t < |h|
      ensures EntryFor(h[t], wrote[t], b, EditAt(cell, me)) == EntryFor(h[t], wrote[t], b, cell)
    {
      if h[t].Some? {
        assert Skips(h[t].value, EditAt(cell, me)) <==> Skips(h[t].value, cell);
      }
    }
  }

  // ---- two actions that are struck ----------------------------------------

  /** An action that read row 1 and carried a splice of row 2 forward passes a rewrite of row 1. */
  lemma SettledMissesAnOverwrite() returns (write: Touch, mine: seq<Touch>, cell: CellEdit)
    ensures |mine| == 2 && WellFormed(mine) && Clash(write, mine[0]) && Within(mine[1], cell)
    ensures Slips([Some(FootprintOf([write]))], [[write]], 0, mine, cell, 0)
    ensures Judge([Some(FootprintOf([write]))], 0, SurfaceOf(mine, false)) == Overlap
  {
    write := Touch(0, Some(1), Some({3}), None, None, 0);
    mine := [write, Touch(0, Some(2), Some({3}), Some((0, 4)), None, 0)];
    cell := CellEdit(0, 2, 3, 0, 4);
    assert HasCol(write, 3) && HasCol(mine[0], 3);
    Alone(write, 3);
    OneSlips(write, mine, cell, 0);
    ClashIsHit([write], mine, 0, 0);
  }

  /**
   * A commit deletes four bytes in front and then replaces two bytes behind. A pending deletion of one
   * of the two lies wholly in the rebased range, passes, and was struck.
   */
  lemma RecordMissesAStrike() returns (writes: seq<Touch>, mine: seq<Touch>, cell: CellEdit)
    ensures writes == [Touch(0, Some(1), Some({3}), Some((0, 4)), None, -4), Touch(0, Some(1), Some({3}), Some((2, 4)), None, 0)]
    ensures mine == [Touch(0, Some(1), Some({3}), Some((7, 8)), None, -1)] && cell == CellEdit(0, 1, 3, 7, 1)
    ensures WellFormed(writes) && WellFormed(mine) && Within(mine[0], cell)
    ensures Rebased([Some(FootprintOf(writes))], 0, cell) == S.At(3) && Passes([Some(FootprintOf(writes))], 0, mine, cell)
    ensures Struck(writes, mine[0])
  {
    var x := Touch(0, Some(1), Some({3}), Some((0, 4)), None, -4);
    var y := Touch(0, Some(1), Some({3}), Some((2, 4)), None, 0);
    writes, mine, cell := [x, y], [Touch(0, Some(1), Some({3}), Some((7, 8)), None, -1)], CellEdit(0, 1, 3, 7, 1);
    ExampleStep(x, y, cell);
    var h: History := [Some(FootprintOf(writes))];
    ExampleStruck(x, y, mine[0]);
    hide *;
    ExamplePasses(FootprintOf(writes), mine, cell);
  }

  lemma ExampleStep(x: Touch, y: Touch, cell: CellEdit)
    requires x == Touch(0, Some(1), Some({3}), Some((0, 4)), None, -4) && y == Touch(0, Some(1), Some({3}), Some((2, 4)), None, 0)
    requires cell == CellEdit(0, 1, 3, 7, 1)
    ensures CellStep(FootprintOf([x, y]), cell, 7) == S.At(3)
  {
    var ts := [x, y];
    assert ts[1..] == [y];
    assert ts[0].table % 64 in Tables(ts) && ts[0].key.value in NamedKeys(ts);
    OnlyColsSame(ts, 3);
    assert RangeOf([y]) == y.range && RangeOf(ts) == Some((0, 4));
    assert [y][1..] == [] && DeltaOf([y]) == 0 + DeltaOf([]) && DeltaOf(ts) == -4;
  }

  lemma ExamplePasses(fp: Footprint, mine: seq<Touch>, cell: CellEdit)
    requires CellStep(fp, cell, cell.at) == S.At(3)
    ensures Rebased([Some(fp)], 0, cell) == S.At(3) && Passes([Some(fp)], 0, mine, cell)
  {
    hide CellStep;
    var h: History := [Some(fp)];
    assert CellWalk(h, 1, 1, cell, 3) == S.At(3);
    assert !Hits(h[0].value, SurfaceOf(mine, true));
    assert Walk(h, 0, SurfaceOf(mine, true)) == Clear;
  }

  lemma ExampleStruck(x: Touch, y: Touch, b: Touch)
    requires x == Touch(0, Some(1), Some({3}), Some((0, 4)), None, -4) && y == Touch(0, Some(1), Some({3}), Some((2, 4)), None, 0)
    requires b == Touch(0, Some(1), Some({3}), Some((7, 8)), None, -1)
    ensures WellFormed([x, y]) && WellFormed([b]) && Struck([x, y], b)
  {
    assert HasCol(x, 3) && HasCol(y, 3) && HasCol(b, 3);
    assert SharesCell(x, b) && SharesCell(y, b);
    hide SharesCell;
    assert [x, y][..1] == [x] && [x][..0] == [] && [b][0] == b;
    assert Own([x], b) == [] + [SpliceOf(x)] == [SpliceOf(x)];
    S.RebaseSnoc(Bytes(b), [], SpliceOf(x));
    assert [] + [SpliceOf(x)] == [SpliceOf(x)];
    assert S.Rebase(Bytes(b), SpliceOf(x)) == S.Ok(S.Splice(3, 1, ""));
    assert S.Rebase(S.Splice(3, 1, ""), SpliceOf(y)).Err?;
    assert Strikes([x, y], 1, b);
  }
}
