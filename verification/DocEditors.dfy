/** The document drivers: many editors read-modify-writing shared fields, blocks and columns. */
module DocEditors {
  import opened Options
  import opened Counting
  import opened Slots
  import opened GuardedStore

  const BLOCK_STRIDE: int := 1000

  datatype Kind = Field | Blocks | Move | Words(n: nat) | Cap

  /** Which cell editor `w` works on, with editors dealt round-robin over `docs` documents. */
  function CellOf(kind: Kind, w: nat, docs: nat): Cell
    requires docs >= 1 && (kind.Words? ==> kind.n >= 1)
  {
    var doc, seat := w % docs, w / docs;
    match kind
    case Field => DocBody(doc)
    case Blocks => BlockBody(doc * BLOCK_STRIDE + seat)
    case Words(n) => BlockBody(doc * BLOCK_STRIDE + w % n)
    case Move => if seat % 2 == 1 then BlockOrd(doc * BLOCK_STRIDE) else BlockBody(doc * BLOCK_STRIDE)
    case Cap => BlockBody(doc * BLOCK_STRIDE)
  }

  function SeededCells(docs: nat, seats: nat): set<Cell> {
    (set d | 0 <= d < docs :: DocBody(d))
    + (set b | 0 <= b < docs * BLOCK_STRIDE && b % BLOCK_STRIDE < seats :: BlockBody(b))
    + (set b | 0 <= b < docs * BLOCK_STRIDE && b % BLOCK_STRIDE < seats :: BlockOrd(b))
  }

  /** The rows laid down before the editors start. */
  function Seeded(docs: nat, seats: nat): map<Cell, Value> {
    map c | c in SeededCells(docs, seats) :: if c.BlockOrd? then Num(c.block % BLOCK_STRIDE) else Text(Blank())
  }

  /** An UPDATE of a row that is not there changes nothing; a move counts up the ordering column. */
  function Edit(c: Cell, w: nat, i: nat, read: Option<Value>): map<Cell, Value> {
    match read
    case None => map[]
    case Some(v) =>
      if c.BlockOrd? then map[c := Num(1 + if v.Num? then v.n else 0)]
      else map[c := Text(Spliced(if v.Text? then v.text else "", w, i))]
  }

  function Editors(kind: Kind, workers: nat, actions: nat, docs: nat, seats: nat): Program
    requires docs >= 1 && (kind.Words? ==> kind.n >= 1)
  {
    Program(workers, actions, Seeded(docs, seats),
            (w: nat, i: nat) => CellOf(kind, w, docs),
            (w: nat, i: nat, r: nat, v: Option<Value>) => Edit(CellOf(kind, w, docs), w, i, v))
  }

  /** All editors on the one field of document 0. */
  function FieldEditors(workers: nat, actions: nat): Program { Editors(Field, workers, actions, 1, 0) }

  function Body(s: State): string {
    match Lookup(s.store, DocBody(0)) case Some(Text(t)) => t case _ => ""
  }

  // ---- no edit is lost ----

  /** The last counter logged by any editor that shares `v`'s slot. */
  function LastAction(log: seq<Commit>, v: nat): Option<nat> {
    if log == [] then None
    else var c := log[|log| - 1];
         if c.worker % SLOTS == v % SLOTS then Some(c.action) else LastAction(log[..|log| - 1], v)
  }

  lemma {:induction false} SlotOfReplay(p: Program, log: seq<Commit>, v: nat)
    requires p == FieldEditors(p.workers, p.actions) && p.actions <= COUNTER_LIMIT
    requires forall j :: 0 <= j < |log| ==> log[j].action < p.actions
    ensures DocBody(0) in Replay(p, log) && Replay(p, log)[DocBody(0)].Text?
    ensures |Replay(p, log)[DocBody(0)].text| == BODY
    ensures ReadSlot(Replay(p, log)[DocBody(0)].text, v) == LastAction(log, v)
  {
    hide ReadSlot, Spliced;
    if log == [] {
      BlankReadsAsMissing(v);
    } else {
      var n := |log| - 1;
      var c := log[n];
      SlotOfReplay(p, log[..n], v);
      var before := Replay(p, log[..n]);
      var text := before[DocBody(0)].text;
      assert p.target(c.worker, c.action) == DocBody(0);
      assert CommitWrites(p, before, c) == map[DocBody(0) := Text(Spliced(text, c.worker, c.action))];
      assert Replay(p, log)[DocBody(0)] == Text(Spliced(text, c.worker, c.action));
      if c.worker % SLOTS == v % SLOTS {
        ReadAfterSplice(text, c.worker, v, c.action);
      } else {
        ReadOtherAfterSplice(text, c.worker, v, c.action);
      }
    }
  }

  /** The slot of any editor is the last counter logged for that slot, in every guarded run. */
  lemma SlotIsLastCommit(workers: nat, actions: nat, g: Guard, steps: seq<Step>, v: nat)
    requires g != NoGuard && actions <= COUNTER_LIMIT && IsRun(FieldEditors(workers, actions), g, steps)
    ensures var s := Final(FieldEditors(workers, actions), g, steps);
      ReadSlot(Body(s), v) == LastAction(s.log, v)
  {
    var p := FieldEditors(workers, actions);
    var s := Final(p, g, steps);
    ShapeHolds(p, g, steps);
    Serialisable(p, g, steps);
    forall j | 0 <= j < |s.log| ensures s.log[j].action < p.actions { assert CommitOk(p, s, j); }
    SlotOfReplay(p, s.log, v);
  }

  lemma SmallMod(w: nat)
    requires w < SLOTS
    ensures w % SLOTS == w
  {
  }

  ghost predicate Numbered(log: seq<Commit>, j: nat)
    requires j < |log|
  {
    log[j].worker < SLOTS && log[j].action == By(log[..j], log[j].worker)
  }

  lemma {:induction false} OwnSlotIsOwnCount(log: seq<Commit>, v: nat)
    requires v < SLOTS && forall j :: 0 <= j < |log| ==> Numbered(log, j)
    ensures LastAction(log, v) == if By(log, v) == 0 then None else Some(By(log, v) - 1)
  {
    if log != [] {
      var n := |log| - 1;
      assert Numbered(log, n);
      forall j | 0 <= j < n ensures Numbered(log[..n], j) {
        assert Numbered(log, j) && log[..n][..j] == log[..j];
      }
      OwnSlotIsOwnCount(log[..n], v);
      SmallMod(v);
      SmallMod(log[n].worker);
      assert LastAction(log, v) == if log[n].worker == v then Some(log[n].action) else LastAction(log[..n], v);
    }
  }

  /** With a slot each, an editor's slot holds its own last committed counter at every moment of
      every guarded run; before its first commit the slot reads as missing, not as zero. */
  lemma SlotHoldsOwnCounter(workers: nat, actions: nat, g: Guard, steps: seq<Step>, w: nat)
    requires g != NoGuard && w < workers <= SLOTS && actions <= COUNTER_LIMIT
    requires IsRun(FieldEditors(workers, actions), g, steps)
    ensures var s := Final(FieldEditors(workers, actions), g, steps);
      |s.workers| == workers
      && ReadSlot(Body(s), w) == if s.workers[w].done == 0 then None else Some(s.workers[w].done - 1)
  {
    var p := FieldEditors(workers, actions);
    var s := Final(p, g, steps);
    hide ReadSlot;
    ShapeHolds(p, g, steps);
    SlotIsLastCommit(workers, actions, g, steps, w);
    forall j | 0 <= j < |s.log| ensures Numbered(s.log, j) {
      assert CommitOk(p, s, j);
    }
    OwnSlotIsOwnCount(s.log, w);
    assert WorkerOk(p, s, w);
  }

  /** The last commit to a slot is its editor's last action once everybody is done. */
  lemma {:induction false} LastActionWhenComplete(p: Program, s: State, m: nat, v: nat)
    requires Shape(p, s) && Complete(p, s) && v < p.workers && m <= |s.log|
    requires forall j :: m <= j < |s.log| ==> s.log[j].worker % SLOTS != v % SLOTS
    requires p.actions >= 1
    ensures LastAction(s.log[..m], v) == Some(p.actions - 1)
  {
    if m == 0 {
      assert WorkerOk(p, s, v);
      NeverLogged(s.log, v);
      assert false;
    }
    var c := s.log[m - 1];
    assert s.log[..m][..m - 1] == s.log[..m - 1] && s.log[..m][m - 1] == c;
    if c.worker % SLOTS == v % SLOTS {
      assert CommitOk(p, s, m - 1) && WorkerOk(p, s, c.worker);
      NotLoggedAfter(s.log, m, c.worker);
    } else {
      LastActionWhenComplete(p, s, m - 1, v);
    }
  }

  lemma {:induction false} NeverLogged(log: seq<Commit>, w: nat)
    requires forall j :: 0 <= j < |log| ==> log[j].worker != w
    ensures By(log, w) == 0
  {
    if log != [] {
      NeverLogged(log[..|log| - 1], w);
    }
  }

  lemma {:induction false} NotLoggedAfter(log: seq<Commit>, m: nat, w: nat)
    requires m <= |log| && forall j :: m <= j < |log| ==> log[j].worker != w
    ensures By(log, w) == By(log[..m], w)
  {
    if m < |log| {
      var n := |log| - 1;
      assert log[..n][..m] == log[..m];
      NotLoggedAfter(log[..n], m, w);
    } else {
      assert log[..m] == log;
    }
  }

  /** The lost-update check reports nothing after a complete guarded run, for any number of
      editors: even editors that share a slot leave the final counter in it. */
  lemma NoEditLost(workers: nat, actions: nat, g: Guard, steps: seq<Step>)
    requires g != NoGuard && 1 <= actions <= COUNTER_LIMIT
    requires IsRun(FieldEditors(workers, actions), g, steps)
    requires Complete(FieldEditors(workers, actions), Final(FieldEditors(workers, actions), g, steps))
    ensures LostIn(Body(Final(FieldEditors(workers, actions), g, steps)), workers, actions) == 0
  {
    hide ReadSlot, LostIn, Body, IsRun;
    var p := FieldEditors(workers, actions);
    var s := Final(p, g, steps);
    ShapeHolds(p, g, steps);
    forall w | 0 <= w < workers ensures ReadSlot(Body(s), w) == Some(actions - 1) {
      SlotIsLastCommit(workers, actions, g, steps, w);
      assert s.log[..|s.log|] == s.log;
      LastActionWhenComplete(p, s, |s.log|, w);
    }
    LostInZero(Body(s), workers, actions);
  }

  lemma OneSlotMissing()
    ensures LostIn(Spliced(Blank(), 1, 0), 2, 1) == 1
  {
    hide ReadSlot, Spliced;
    ReadAfterSplice(Blank(), 1, 1, 0);
    ReadOtherAfterSplice(Blank(), 1, 0, 0);
    BlankReadsAsMissing(0);
    var lost := (w: nat) => ReadSlot(Spliced(Blank(), 1, 0), w) != Some(0);
    assert lost(0) && !lost(1);
    assert Count(2, lost) == Count(1, lost) == 1;
  }

  lemma BlankStart()
    ensures var p, idle := FieldEditors(2, 1), Worker(0, 0, Idle);
      && Lookup(p.init, DocBody(0)) == Some(Text(Blank()))
      && IsRun(p, NoGuard, []) && Final(p, NoGuard, []) == State(p.init, [], [idle, idle])
  {
    var p, idle := FieldEditors(2, 1), Worker(0, 0, Idle);
    assert Init(p).workers == [idle, idle];
  }

  /** Two editors can both be thinking about the blank body. */
  lemma BothRead() returns (steps: seq<Step>)
    ensures var p, thinking := FieldEditors(2, 1), Worker(0, 0, Thinking(0, Some(Text(Blank()))));
      IsRun(p, NoGuard, steps) && Final(p, NoGuard, steps) == State(p.init, [], [thinking, thinking])
  {
    hide ReadSlot, Spliced, Blank;
    var p, blank := FieldEditors(2, 1), Some(Text(Blank()));
    var idle, snapped, thinking := Worker(0, 0, Idle), Worker(0, 0, Snapped(0)), Worker(0, 0, Thinking(0, blank));
    hide IsRun, Final, Seeded;
    BlankStart();
    RunExtends(p, NoGuard, [], Snap(0));
    var s1 := [] + [Snap(0)];
    assert Final(p, NoGuard, s1) == State(p.init, [], [snapped, idle]);
    RunExtends(p, NoGuard, s1, Snap(1));
    var s2 := s1 + [Snap(1)];
    assert Final(p, NoGuard, s2) == State(p.init, [], [snapped, snapped]);
    RunExtends(p, NoGuard, s2, Read(0));
    var s3 := s2 + [Read(0)];
    assert Final(p, NoGuard, s3) == State(p.init, [], [thinking, snapped]);
    RunExtends(p, NoGuard, s3, Read(1));
    steps := s3 + [Read(1)];
  }

  /** Two unguarded editors that read before either writes: the run completes, and the check
      finds the first editor's edit gone. */
  lemma UnguardedRunLosesAnEdit() returns (steps: seq<Step>)
    ensures IsRun(FieldEditors(2, 1), NoGuard, steps)
    ensures Complete(FieldEditors(2, 1), Final(FieldEditors(2, 1), NoGuard, steps))
    ensures LostIn(Body(Final(FieldEditors(2, 1), NoGuard, steps)), 2, 1) == 1
  {
    hide ReadSlot, Spliced, LostIn, Blank, IsRun, Final;
    var p, thinking := FieldEditors(2, 1), Worker(0, 0, Thinking(0, Some(Text(Blank()))));
    var s4 := BothRead();
    RunExtends(p, NoGuard, s4, Accept(0));
    var s5 := s4 + [Accept(0)];
    assert Final(p, NoGuard, s5).workers == [Worker(1, 0, Idle), thinking];
    RunExtends(p, NoGuard, s5, Accept(1));
    steps := s5 + [Accept(1)];
    var s := Final(p, NoGuard, steps);
    assert s.workers == [Worker(1, 0, Idle), Worker(1, 0, Idle)];
    assert s.store[DocBody(0)] == Text(Spliced(Blank(), 1, 0));
    OneSlotMissing();
  }

  // ---- who can refuse whom ----

  /** Under an exact guard an editor is refused at most once per commit, by another editor, to the
      very cell it edits: other documents, other blocks and other columns never refuse it. */
  lemma OnlySharersRefuse(kind: Kind, workers: nat, actions: nat, docs: nat, seats: nat, steps: seq<Step>, w: nat)
    requires docs >= 1 && (kind.Words? ==> kind.n >= 1) && w < workers
    requires IsRun(Editors(kind, workers, actions, docs, seats), Exact, steps)
    ensures var s := Final(Editors(kind, workers, actions, docs, seats), Exact, steps);
      |s.workers| == workers
      && s.workers[w].retries <= ForeignHits(s.log, w, (cells: set<Cell>) => CellOf(kind, w, docs) in cells)
  {
    var p := Editors(kind, workers, actions, docs, seats);
    var hit := (cells: set<Cell>) => CellOf(kind, w, docs) in cells;
    assert HitsEveryRefusal(p, Exact, w, hit);
    RefusalsCharged(p, Exact, steps, w, hit);
  }

  lemma {:induction false} NoHits(log: seq<Commit>, w: nat, hit: set<Cell> -> bool)
    requires forall j :: 0 <= j < |log| && log[j].worker != w ==> !hit(log[j].cells)
    ensures ForeignHits(log, w, hit) == 0
  {
    if log != [] {
      NoHits(log[..|log| - 1], w, hit);
    }
  }

  /** Editors that share no cell are never refused, in any interleaving. */
  lemma DisjointEditorsNeverRetry(kind: Kind, workers: nat, actions: nat, docs: nat, seats: nat, steps: seq<Step>, w: nat)
    requires docs >= 1 && (kind.Words? ==> kind.n >= 1) && w < workers
    requires forall v :: 0 <= v < workers && v != w ==> CellOf(kind, v, docs) != CellOf(kind, w, docs)
    requires IsRun(Editors(kind, workers, actions, docs, seats), Exact, steps)
    ensures var s := Final(Editors(kind, workers, actions, docs, seats), Exact, steps);
      |s.workers| == workers && s.workers[w].retries == 0
  {
    var p := Editors(kind, workers, actions, docs, seats);
    var s := Final(p, Exact, steps);
    OnlySharersRefuse(kind, workers, actions, docs, seats, steps, w);
    ShapeHolds(p, Exact, steps);
    Serialisable(p, Exact, steps);
    forall j | 0 <= j < |s.log| && s.log[j].worker != w ensures CellOf(kind, w, docs) !in s.log[j].cells {
      assert CommitOk(p, s, j);
      assert s.log[j].cells == CommitWrites(p, Replay(p, s.log[..j]), s.log[j]).Keys;
    }
    NoHits(s.log, w, (cells: set<Cell>) => CellOf(kind, w, docs) in cells);
  }

  /** One block per seat keeps editors apart, as long as seats stay inside a document's stride. */
  lemma BlocksAreDisjoint(w: nat, v: nat, docs: nat)
    requires docs >= 1 && w != v && w / docs < BLOCK_STRIDE && v / docs < BLOCK_STRIDE
    ensures CellOf(Blocks, w, docs) != CellOf(Blocks, v, docs)
  {
    if CellOf(Blocks, w, docs) == CellOf(Blocks, v, docs) {
      SameBlock(w, v, docs);
    }
  }

  lemma SameBlock(w: nat, v: nat, docs: nat)
    requires docs >= 1 && w / docs < BLOCK_STRIDE && v / docs < BLOCK_STRIDE
    requires CellOf(Blocks, w, docs) == CellOf(Blocks, v, docs)
    ensures w == v
  {
    DivMod(w, docs);
    DivMod(v, docs);
    var q, r, q', r' := w / docs, w % docs, v / docs, v % docs;
    assert r * BLOCK_STRIDE + q == r' * BLOCK_STRIDE + q';
    assert r == r' && q == q';
  }

  lemma DivMod(w: nat, n: nat)
    requires n >= 1
    ensures w == (w / n) * n + w % n
  {
  }
}
