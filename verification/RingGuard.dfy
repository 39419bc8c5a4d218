/** The footprint ring as the guard of the read-think-commit protocol. */
module RingGuard {
  import opened Options
  import G = GuardRing
  import opened GuardedStore

  /** Row and column of a cell, as a statement on it touches them; an INSERT touches every column. */
  function TouchOf(c: Cell, hash: int -> nat): G.Touch {
    match c
    case DocBody(d) => G.Touch(0, Some(hash(d)), Some({1}), None, None, 0)
    case BlockBody(b) => G.Touch(1, Some(hash(b)), Some({3}), None, None, 0)
    case BlockOrd(b) => G.Touch(1, Some(hash(b)), Some({2}), None, None, 0)
    case Balance(a) => G.Touch(2, Some(hash(a)), Some({1}), None, None, 0)
    case Audit(i) => G.Touch(3, Some(hash(i)), None, None, None, 0)
  }

  ghost predicate Covers(ts: seq<G.Touch>, cells: set<Cell>, hash: int -> nat) {
    forall c :: c in cells ==> TouchOf(c, hash) in ts
  }

  /** The ring has seen the same commits as the log. */
  ghost predicate Tracks(h: G.History, wrote: seq<seq<G.Touch>>, log: seq<Commit>, hash: int -> nat) {
    && G.Recorded(h, wrote) && |h| == |log|
    && forall j :: 0 <= j < |log| ==> Covers(wrote[j], log[j].cells, hash)
  }

  lemma SameCellClashes(c: Cell, hash: int -> nat)
    ensures G.Clash(TouchOf(c, hash), TouchOf(c, hash))
  {
    var t := TouchOf(c, hash);
    var k: nat := match c case DocBody(_) => 1 case BlockBody(_) => 3 case BlockOrd(_) => 2 case Balance(_) => 1 case Audit(_) => 0;
    assert G.HasCol(t, k);
  }

  /** Whatever the ring answers is a step the protocol allows under a sound guard: it clears only
      without overlap and refuses only after a commit. */
  lemma RingIsSoundGuard(p: Program, s: State, w: nat, h: G.History, wrote: seq<seq<G.Touch>>,
                         mine: seq<G.Touch>, hash: int -> nat)
    requires |s.workers| == p.workers && w < p.workers && s.workers[w].phase.Thinking?
    requires Tracks(h, wrote, s.log, hash) && Covers(mine, Surface(p, s, w), hash)
    ensures var v := G.Judge(h, s.workers[w].phase.snap, G.SurfaceOf(mine, false));
      Enabled(p, Sound, s, if v == G.Clear then Accept(w) else Refuse(w))
  {
    var snap := s.workers[w].phase.snap;
    if G.Judge(h, snap, G.SurfaceOf(mine, false)) == G.Clear {
      if Overlap(p, s, w) {
        var u :| snap <= u < |s.log| && !(s.log[u].cells !! Surface(p, s, w));
        var c :| c in s.log[u].cells && c in Surface(p, s, w);
        var t := TouchOf(c, hash);
        assert Covers(wrote[u], s.log[u].cells, hash) && t in wrote[u] && t in mine;
        var i :| 0 <= i < |wrote[u]| && wrote[u][i] == t;
        var j :| 0 <= j < |mine| && mine[j] == t;
        SameCellClashes(c, hash);
        G.GuardIsSound(h, wrote, snap, mine, u, i, j);
      }
    } else {
      G.RefusalsExplained(h, snap, G.SurfaceOf(mine, false));
    }
  }

  ghost predicate Injective(hash: int -> nat) { forall a, b :: hash(a) == hash(b) ==> a == b }

  ghost predicate OneCell(ts: seq<G.Touch>, c: Cell, hash: int -> nat) {
    !c.Audit? && G.Only(ts, TouchOf(c, hash))
  }

  /** For actions on a single cell each, inside the ring's window and without a hash collision,
      the ring answers exactly: it refuses if and only if that cell was committed to. */
  lemma RingIsExactGuard(p: Program, s: State, w: nat, h: G.History, wrote: seq<seq<G.Touch>>,
                         cells: seq<Cell>, mine: seq<G.Touch>, hash: int -> nat)
    requires |s.workers| == p.workers && w < p.workers && s.workers[w].phase.Thinking? && Injective(hash)
    requires G.Recorded(h, wrote) && |h| == |s.log| == |cells|
    requires |s.log| <= s.workers[w].phase.snap + G.SLOTS
    requires forall j :: 0 <= j < |h| ==> h[j].Some? && s.log[j].cells == {cells[j]} && OneCell(wrote[j], cells[j], hash)
    requires Surface(p, s, w) == {Target(p, s, w)} && OneCell(mine, Target(p, s, w), hash)
    ensures G.Judge(h, s.workers[w].phase.snap, G.SurfaceOf(mine, false))
         == if Overlap(p, s, w) then G.Overlap else G.Clear
  {
    var snap, sf, c := s.workers[w].phase.snap, G.SurfaceOf(mine, false), Target(p, s, w);
    forall u | snap <= u < |h| ensures G.Hits(h[u].value, sf) <==> !(s.log[u].cells !! Surface(p, s, w)) {
      assert OneCell(wrote[u], cells[u], hash);
      assert h[u].value == G.FootprintOf(wrote[u]);
      CellsAreSingle(cells[u], hash);
      CellsAreSingle(c, hash);
      G.SingleCellExact(wrote[u], TouchOf(cells[u], hash), mine, TouchOf(c, hash));
      SameTouchSameCell(cells[u], c, hash);
    }
    G.RefusalsExplained(h, snap, sf);
  }

  lemma CellsAreSingle(c: Cell, hash: int -> nat)
    requires !c.Audit?
    ensures G.SingleCell(TouchOf(c, hash))
  {
  }

  lemma SameTouchSameCell(c: Cell, d: Cell, hash: int -> nat)
    requires Injective(hash) && !c.Audit? && !d.Audit?
    ensures (TouchOf(c, hash).table == TouchOf(d, hash).table && TouchOf(c, hash).key == TouchOf(d, hash).key
             && TouchOf(c, hash).cols == TouchOf(d, hash).cols) <==> c == d
  {
    var a, b := TouchOf(c, hash).cols.value, TouchOf(d, hash).cols.value;
    if a == b {
      assert 2 in a <==> 2 in b;
    }
  }

  // ---- runs driven by the ring ----

  /** A step of a worker with what it declared and wrote; a writer may commit without recording. */
  datatype Move = Move(step: Step, mine: seq<G.Touch>, writes: seq<G.Touch>, records: bool)

  datatype World = World(state: State, h: G.History, wrote: seq<seq<G.Touch>>)

  /** The worker is at the step, and a commit is decided by the ring and by nothing else. */
  ghost predicate Decided(p: Program, x: World, m: Move, hash: int -> nat) {
    && m.step.w < p.workers == |x.state.workers|
    && (m.step.Snap? || m.step.Read? ==> Enabled(p, Sound, x.state, m.step))
    && (m.step.Accept? || m.step.Refuse? ==>
          var me := x.state.workers[m.step.w];
          && me.phase.Thinking? && Covers(m.mine, Surface(p, x.state, m.step.w), hash)
          && (m.step.Accept? <==> G.Judge(x.h, me.phase.snap, G.SurfaceOf(m.mine, false)) == G.Clear)
          && (m.step.Accept? ==> Covers(m.writes, Writes(p, x.state, m.step.w).Keys, hash)))
  }

  lemma DecidedIsEnabled(p: Program, x: World, m: Move, hash: int -> nat)
    requires Tracks(x.h, x.wrote, x.state.log, hash) && Decided(p, x, m, hash)
    ensures Enabled(p, Sound, x.state, m.step)
  {
    hide G.Judge, G.SurfaceOf, Tracks, Covers;
    if m.step.Accept? || m.step.Refuse? {
      RingIsSoundGuard(p, x.state, m.step.w, x.h, x.wrote, m.mine, hash);
    }
  }

  function Moved(p: Program, x: World, m: Move): World
    requires Enabled(p, Sound, x.state, m.step)
  {
    var state := Next(p, Sound, x.state, m.step);
    if !m.step.Accept? then x.(state := state)
    else World(state, x.h + [if m.records then Some(G.FootprintOf(m.writes)) else None], x.wrote + [m.writes])
  }

  lemma MovedTracks(p: Program, x: World, m: Move, hash: int -> nat)
    requires Tracks(x.h, x.wrote, x.state.log, hash) && Decided(p, x, m, hash) && Enabled(p, Sound, x.state, m.step)
    ensures var y := Moved(p, x, m); Tracks(y.h, y.wrote, y.state.log, hash)
  {
    hide G.FootprintOf, G.Judge;
    var y := Moved(p, x, m);
    if m.step.Accept? {
      forall j | 0 <= j < |y.state.log|
        ensures Covers(y.wrote[j], y.state.log[j].cells, hash)
      {
        if j < |x.state.log| {
          assert y.state.log[j] == x.state.log[j] && y.wrote[j] == x.wrote[j];
        }
      }
    }
  }

  ghost predicate IsRingRun(p: Program, moves: seq<Move>, hash: int -> nat)
    decreases |moves|, 0
  {
    moves == [] ||
      (var n := |moves| - 1; IsRingRun(p, moves[..n], hash) && Decided(p, Reached(p, moves[..n], hash), moves[n], hash))
  }

  ghost function Reached(p: Program, moves: seq<Move>, hash: int -> nat): (x: World)
    requires IsRingRun(p, moves, hash)
    ensures Tracks(x.h, x.wrote, x.state.log, hash)
    decreases |moves|, 1
  {
    if moves == [] then World(Init(p), [], [])
    else
      var n := |moves| - 1;
      var x := Reached(p, moves[..n], hash);
      DecidedIsEnabled(p, x, moves[n], hash);
      MovedTracks(p, x, moves[n], hash);
      Moved(p, x, moves[n])
  }

  function StepsOf(moves: seq<Move>): seq<Step> {
    seq(|moves|, i requires 0 <= i < |moves| => moves[i].step)
  }

  /** Workers whose commits are decided by the ring make a run under the sound guard: all that is
      proved of such runs holds of them. */
  lemma {:induction false} RingRunsAreRuns(p: Program, moves: seq<Move>, hash: int -> nat)
    requires IsRingRun(p, moves, hash)
    ensures IsRun(p, Sound, StepsOf(moves))
    ensures Final(p, Sound, StepsOf(moves)) == Reached(p, moves, hash).state
    decreases |moves|
  {
    hide Tracks, Decided;
    if moves != [] {
      var n := |moves| - 1;
      RingRunsAreRuns(p, moves[..n], hash);
      DecidedIsEnabled(p, Reached(p, moves[..n], hash), moves[n], hash);
      RunExtends(p, Sound, StepsOf(moves[..n]), moves[n].step);
      assert StepsOf(moves) == StepsOf(moves[..n]) + [moves[n].step];
    } else {
      assert StepsOf(moves) == [];
    }
  }

  /** In particular no update is lost, whatever the interleaving. */
  lemma RingRunsAreSerialisable(p: Program, moves: seq<Move>, hash: int -> nat)
    requires IsRingRun(p, moves, hash)
    ensures var s := Reached(p, moves, hash).state; s.store == Replay(p, s.log)
  {
    RingRunsAreRuns(p, moves, hash);
    Serialisable(p, Sound, StepsOf(moves));
    var s := Reached(p, moves, hash).state;
    assert s.log[..|s.log|] == s.log;
  }
}
