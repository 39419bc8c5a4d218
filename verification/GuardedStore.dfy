/** Workers that read a cell, think while holding nothing, and commit through a
    guard, retrying when refused. Every interleaving of their steps is a run. */
module GuardedStore {
  import opened Options
  import opened Counting

  /** One column of one row: the finest thing a guard can tell apart. */
  datatype Cell =
    | DocBody(doc: int)
    | BlockBody(block: int)
    | BlockOrd(block: int)
    | Balance(acct: int)
    | Audit(id: int)

  datatype Value = Text(text: string) | Num(n: int) | Note(acct: int, note: int)

  /** What each worker does: the cell it reads and the writes it derives from it.
      `writes` also sees the number of refusals so far, because a retry may differ. */
  datatype Program = Program(
    workers: nat,
    actions: nat,
    init: map<Cell, Value>,
    target: (nat, nat) -> Cell,
    writes: (nat, nat, nat, Option<Value>) -> map<Cell, Value>
  )

  datatype Phase =
    | Idle
    | Snapped(snap: nat)
    | Thinking(snap: nat, read: Option<Value>)

  datatype Worker = Worker(done: nat, retries: nat, phase: Phase)

  datatype Commit = Commit(worker: nat, action: nat, attempt: nat, cells: set<Cell>)

  /** Transaction ids are positions in the log: the newest committed id is its length. */
  datatype State = State(store: map<Cell, Value>, log: seq<Commit>, workers: seq<Worker>)

  datatype Step = Snap(w: nat) | Read(w: nat) | Accept(w: nat) | Refuse(w: nat)

  /** `Sound` may refuse whenever anything was committed after the snapshot but never
      accepts an overlap; `Exact` refuses precisely on overlap. */
  datatype Guard = NoGuard | Sound | Exact

  // ---- one step ----

  function Lookup(store: map<Cell, Value>, c: Cell): Option<Value> {
    if c in store then Some(store[c]) else None
  }

  function Init(p: Program): State {
    State(p.init, [], seq(p.workers, _ => Worker(0, 0, Idle)))
  }

  function Target(p: Program, s: State, w: nat): Cell
    requires w < |s.workers|
  {
    p.target(w, s.workers[w].done)
  }

  function Writes(p: Program, s: State, w: nat): map<Cell, Value>
    requires w < |s.workers| && s.workers[w].phase.Thinking?
  {
    p.writes(w, s.workers[w].done, s.workers[w].retries, s.workers[w].phase.read)
  }

  /** The declared surface: everything the action reads or writes. */
  function Surface(p: Program, s: State, w: nat): set<Cell>
    requires w < |s.workers| && s.workers[w].phase.Thinking?
  {
    {Target(p, s, w)} + Writes(p, s, w).Keys
  }

  predicate Overlap(p: Program, s: State, w: nat)
    requires w < |s.workers| && s.workers[w].phase.Thinking?
  {
    exists j :: s.workers[w].phase.snap <= j < |s.log| && !(s.log[j].cells !! Surface(p, s, w))
  }

  predicate Enabled(p: Program, g: Guard, s: State, step: Step) {
    var w := step.w;
    && w < p.workers == |s.workers|
    && var me := s.workers[w];
       match step
       case Snap(_) => me.phase.Idle? && me.done < p.actions
       case Read(_) => me.phase.Snapped?
       case Accept(_) => me.phase.Thinking? && (g != NoGuard ==> !Overlap(p, s, w))
       case Refuse(_) => me.phase.Thinking? && g != NoGuard && me.phase.snap < |s.log|
                         && (g == Exact ==> Overlap(p, s, w))
  }

  function Next(p: Program, g: Guard, s: State, step: Step): State
    requires Enabled(p, g, s, step)
  {
    var w := step.w;
    var me := s.workers[w];
    match step
    case Snap(_) =>
      s.(workers := s.workers[w := me.(phase := Snapped(|s.log|))])
    case Read(_) =>
      s.(workers := s.workers[w := me.(phase := Thinking(me.phase.snap, Lookup(s.store, Target(p, s, w))))])
    case Accept(_) =>
      State(s.store + Writes(p, s, w),
            s.log + [Commit(w, me.done, me.retries, Writes(p, s, w).Keys)],
            s.workers[w := Worker(me.done + 1, me.retries, Idle)])
    case Refuse(_) =>
      s.(workers := s.workers[w := Worker(me.done, me.retries + 1, Idle)])
  }

  // ---- runs ----

  predicate IsRun(p: Program, g: Guard, steps: seq<Step>)
    decreases |steps|, 0
  {
    steps == [] || (var n := |steps| - 1;
                    IsRun(p, g, steps[..n]) && Enabled(p, g, Final(p, g, steps[..n]), steps[n]))
  }

  function Final(p: Program, g: Guard, steps: seq<Step>): State
    requires IsRun(p, g, steps)
    decreases |steps|, 1
  {
    if steps == [] then Init(p)
    else Next(p, g, Final(p, g, steps[..|steps| - 1]), steps[|steps| - 1])
  }

  lemma RunExtends(p: Program, g: Guard, steps: seq<Step>, step: Step)
    requires IsRun(p, g, steps) && Enabled(p, g, Final(p, g, steps), step)
    ensures IsRun(p, g, steps + [step])
    ensures Final(p, g, steps + [step]) == Next(p, g, Final(p, g, steps), step)
  {
    assert (steps + [step])[..|steps|] == steps;
  }

  predicate Complete(p: Program, s: State) {
    |s.workers| == p.workers && forall w :: 0 <= w < p.workers ==> s.workers[w].done == p.actions
  }

  // ---- the serial reference ----

  function CommitWrites(p: Program, store: map<Cell, Value>, c: Commit): map<Cell, Value> {
    p.writes(c.worker, c.action, c.attempt, Lookup(store, p.target(c.worker, c.action)))
  }

  /** The committed actions run one at a time, in commit order, each reading for itself. */
  function Replay(p: Program, log: seq<Commit>): map<Cell, Value> {
    if log == [] then p.init
    else var before := Replay(p, log[..|log| - 1]);
         before + CommitWrites(p, before, log[|log| - 1])
  }

  function By(log: seq<Commit>, w: nat): (n: nat)
    ensures n <= |log|
  {
    if log == [] then 0
    else By(log[..|log| - 1], w) + (if log[|log| - 1].worker == w then 1 else 0)
  }

  // ---- what every step keeps ----

  ghost predicate WorkerOk(p: Program, s: State, w: nat)
    requires w < |s.workers|
  {
    var me := s.workers[w];
    && me.done <= p.actions
    && me.done == By(s.log, w)
    && (!me.phase.Idle? ==> me.done < p.actions && me.phase.snap <= |s.log|)
  }

  /** Each worker's commits carry its action numbers in order, without a gap. */
  ghost predicate CommitOk(p: Program, s: State, j: nat)
    requires j < |s.log|
  {
    var c := s.log[j];
    && c.worker < |s.workers|
    && c.action < p.actions
    && c.action == By(s.log[..j], c.worker)
    && c.attempt <= s.workers[c.worker].retries
    && (forall i :: 0 <= i < j && s.log[i].worker == c.worker ==> s.log[i].attempt <= c.attempt)
  }

  ghost predicate Shape(p: Program, s: State) {
    && |s.workers| == p.workers
    && (forall w :: 0 <= w < p.workers ==> WorkerOk(p, s, w))
    && (forall j :: 0 <= j < |s.log| ==> CommitOk(p, s, j))
  }

  /** A worker that is not idle has not committed since its snapshot. */
  ghost predicate SelfQuiet(s: State) {
    forall w, j ::
      (0 <= w < |s.workers| && !s.workers[w].phase.Idle? && s.workers[w].phase.snap <= j < |s.log|)
      ==> s.log[j].worker != w
  }

  /** The log names the cells it wrote, and the store is its serial replay. */
  ghost predicate Replayed(p: Program, s: State) {
    && s.store == Replay(p, s.log)
    && (forall j :: 0 <= j < |s.log| ==>
          s.log[j].cells == CommitWrites(p, Replay(p, s.log[..j]), s.log[j]).Keys)
  }

  ghost predicate Untouched(log: seq<Commit>, from: nat, c: Cell) {
    forall j :: from <= j < |log| ==> c !in log[j].cells
  }

  /** A value read is still current unless its cell was committed to after the snapshot. */
  ghost predicate ReadCurrent(p: Program, s: State, w: nat)
    requires w < |s.workers|
  {
    var me := s.workers[w];
    me.phase.Thinking? && Untouched(s.log, me.phase.snap, p.target(w, me.done))
    ==> me.phase.read == Lookup(s.store, p.target(w, me.done))
  }

  ghost predicate ReadsCurrent(p: Program, s: State) {
    forall w :: 0 <= w < |s.workers| ==> ReadCurrent(p, s, w)
  }

  lemma PrefixesKept(log: seq<Commit>, c: Commit)
    ensures (log + [c])[..|log|] == log
    ensures forall j :: 0 <= j <= |log| ==> (log + [c])[..j] == log[..j]
  {
  }

  lemma ShapeStep(p: Program, g: Guard, s: State, step: Step)
    requires Shape(p, s) && SelfQuiet(s) && Enabled(p, g, s, step)
    ensures Shape(p, Next(p, g, s, step)) && SelfQuiet(Next(p, g, s, step))
  {
    var t, me := Next(p, g, s, step), s.workers[step.w];
    if step.Accept? {
      PrefixesKept(s.log, t.log[|s.log|]);
    }
    assert WorkerOk(p, s, step.w);
    forall w | 0 <= w < p.workers ensures WorkerOk(p, t, w) {
      assert WorkerOk(p, s, w);
    }
    forall j | 0 <= j < |t.log| ensures CommitOk(p, t, j) {
      if j < |s.log| {
        assert CommitOk(p, s, j);
      } else {
        forall i | 0 <= i < j && t.log[i].worker == step.w ensures t.log[i].attempt <= me.retries {
          assert CommitOk(p, s, i);
        }
      }
    }
  }

  lemma {:induction false} ShapeHolds(p: Program, g: Guard, steps: seq<Step>)
    requires IsRun(p, g, steps)
    ensures Shape(p, Final(p, g, steps)) && SelfQuiet(Final(p, g, steps))
  {
    if steps != [] {
      var n := |steps| - 1;
      ShapeHolds(p, g, steps[..n]);
      ShapeStep(p, g, Final(p, g, steps[..n]), steps[n]);
    }
  }

  /** An accepted action wrote what a serial replay of it would have written. */
  lemma AcceptedReadsCurrent(p: Program, g: Guard, s: State, w: nat)
    requires g != NoGuard && Enabled(p, g, s, Accept(w)) && ReadsCurrent(p, s)
    ensures s.workers[w].phase.read == Lookup(s.store, Target(p, s, w))
  {
    var me, c := s.workers[w], Target(p, s, w);
    forall j | me.phase.snap <= j < |s.log| ensures c !in s.log[j].cells {
      assert s.log[j].cells !! Surface(p, s, w);
      assert c in Surface(p, s, w);
    }
    assert ReadCurrent(p, s, w);
  }

  lemma ReplayedStep(p: Program, g: Guard, s: State, step: Step)
    requires g != NoGuard && Enabled(p, g, s, step) && Replayed(p, s) && ReadsCurrent(p, s)
    ensures Replayed(p, Next(p, g, s, step))
  {
    hide ReadsCurrent, Surface;
    if step.Accept? {
      var t := Next(p, g, s, step);
      var c := t.log[|s.log|];
      AcceptedReadsCurrent(p, g, s, step.w);
      PrefixesKept(s.log, c);
      assert CommitWrites(p, s.store, c) == Writes(p, s, step.w);
    }
  }

  lemma ReadsCurrentStep(p: Program, g: Guard, s: State, step: Step)
    requires Enabled(p, g, s, step) && Shape(p, s) && ReadsCurrent(p, s)
    ensures ReadsCurrent(p, Next(p, g, s, step))
  {
    var t := Next(p, g, s, step);
    forall v | 0 <= v < |t.workers| ensures ReadCurrent(p, t, v) {
      assert ReadCurrent(p, s, v) && WorkerOk(p, s, v);
      var o := t.workers[v];
      if step.Accept? && o.phase.Thinking? && Untouched(t.log, o.phase.snap, p.target(v, o.done)) {
        assert p.target(v, o.done) !in t.log[|s.log|].cells;
        forall j | o.phase.snap <= j < |s.log| ensures p.target(v, o.done) !in s.log[j].cells {
          assert t.log[j] == s.log[j];
        }
      }
    }
  }

  /** Serialisability: in every guarded run, whatever the interleaving and however often the
      guard refuses, the store is what the committed actions produce one after the other. */
  lemma {:induction false} Serialisable(p: Program, g: Guard, steps: seq<Step>)
    requires g != NoGuard && IsRun(p, g, steps)
    ensures Replayed(p, Final(p, g, steps)) && ReadsCurrent(p, Final(p, g, steps))
  {
    if steps != [] {
      var n := |steps| - 1;
      var s := Final(p, g, steps[..n]);
      Serialisable(p, g, steps[..n]);
      ShapeHolds(p, g, steps[..n]);
      ReplayedStep(p, g, s, steps[n]);
      ReadsCurrentStep(p, g, s, steps[n]);
    }
  }

  // ---- how often the guard can refuse ----

  /** The part of the log a worker's refusals so far may be charged to. */
  function Seen(s: State, w: nat): (seen: seq<Commit>)
    requires w < |s.workers|
    ensures seen <= s.log
  {
    var ph := s.workers[w].phase;
    if ph.Idle? || ph.snap > |s.log| then s.log else s.log[..ph.snap]
  }

  /** Commits by others, counted when `hit` holds of the cells they wrote. */
  function ForeignHits(log: seq<Commit>, w: nat, hit: set<Cell> -> bool): (n: nat)
    ensures n <= |log|
  {
    if log == [] then 0
    else var c := log[|log| - 1];
         ForeignHits(log[..|log| - 1], w, hit) + (if c.worker != w && hit(c.cells) then 1 else 0)
  }

  lemma {:induction false} ForeignHitsGrow(log: seq<Commit>, m: nat, w: nat, hit: set<Cell> -> bool)
    requires m <= |log|
    ensures ForeignHits(log[..m], w, hit) <= ForeignHits(log, w, hit)
    ensures (exists j :: m <= j < |log| && log[j].worker != w && hit(log[j].cells))
            ==> ForeignHits(log[..m], w, hit) < ForeignHits(log, w, hit)
  {
    if m < |log| {
      var n := |log| - 1;
      assert log[..n][..m] == log[..m];
      ForeignHitsGrow(log[..n], m, w, hit);
      if j :| m <= j < |log| && log[j].worker != w && hit(log[j].cells) {
        if j < n {
          assert log[..n][j] == log[j];
        }
      }
    } else {
      assert log[..m] == log;
    }
  }

  /** Which committed cells can make the guard refuse worker `w`: under an exact guard only
      those on some surface of `w`, under a merely sound one any at all. */
  ghost predicate HitsEveryRefusal(p: Program, g: Guard, w: nat, hit: set<Cell> -> bool) {
    forall i: nat, r: nat, v: Option<Value>, cells: set<Cell> {:trigger p.writes(w, i, r, v), hit(cells)} ::
      (g == Exact ==> !(cells !! ({p.target(w, i)} + p.writes(w, i, r, v).Keys))) ==> hit(cells)
  }

  ghost predicate RetriesPaid(s: State, w: nat, hit: set<Cell> -> bool)
    requires w < |s.workers|
  {
    s.workers[w].retries <= ForeignHits(Seen(s, w), w, hit)
  }

  /** A refusal of `w` has a foreign commit after its snapshot to pay for it. */
  lemma RefusalPaid(p: Program, g: Guard, s: State, w: nat, hit: set<Cell> -> bool)
    requires Shape(p, s) && SelfQuiet(s) && Enabled(p, g, s, Refuse(w)) && w < p.workers
    requires HitsEveryRefusal(p, g, w, hit)
    ensures s.workers[w].phase.Thinking? && s.workers[w].phase.snap <= |s.log|
    ensures ForeignHits(s.log[..s.workers[w].phase.snap], w, hit) < ForeignHits(s.log, w, hit)
  {
    var me := s.workers[w];
    assert WorkerOk(p, s, w);
    var j := |s.log| - 1;
    if g == Exact {
      j :| me.phase.snap <= j < |s.log| && !(s.log[j].cells !! Surface(p, s, w));
    }
    var v := me.phase.read;
    assert hit(s.log[j].cells) by {
      assert Writes(p, s, w) == p.writes(w, me.done, me.retries, v);
    }
    ForeignHitsGrow(s.log, me.phase.snap, w, hit);
  }

  lemma RetriesPaidStep(p: Program, g: Guard, s: State, step: Step, w: nat, hit: set<Cell> -> bool)
    requires Shape(p, s) && SelfQuiet(s) && Enabled(p, g, s, step) && w < p.workers
    requires HitsEveryRefusal(p, g, w, hit) && RetriesPaid(s, w, hit)
    ensures RetriesPaid(Next(p, g, s, step), w, hit)
  {
    hide HitsEveryRefusal, SelfQuiet, Surface, ForeignHits;
    var t, me := Next(p, g, s, step), s.workers[w];
    assert WorkerOk(p, s, w);
    if step.Accept? {
      PrefixesKept(s.log, t.log[|s.log|]);
      ForeignHitsGrow(t.log, |Seen(s, w)|, w, hit);
    } else if step == Refuse(w) {
      RefusalPaid(p, g, s, w, hit);
    } else if step.w == w && step.Snap? {
      assert s.log[..|s.log|] == s.log;
    }
  }

  /** Each refusal of a worker is charged to its own foreign commit: a worker is refused no
      more often than others committed something that can refuse it. */
  lemma {:induction false} RefusalsCharged(p: Program, g: Guard, steps: seq<Step>, w: nat, hit: set<Cell> -> bool)
    requires IsRun(p, g, steps) && w < p.workers && HitsEveryRefusal(p, g, w, hit)
    ensures |Final(p, g, steps).workers| == p.workers
    ensures RetriesPaid(Final(p, g, steps), w, hit)
    ensures Final(p, g, steps).workers[w].retries <= ForeignHits(Final(p, g, steps).log, w, hit)
  {
    hide HitsEveryRefusal, ForeignHits, Next;
    ShapeHolds(p, g, steps);
    if steps != [] {
      var n := |steps| - 1;
      RefusalsCharged(p, g, steps[..n], w, hit);
      ShapeHolds(p, g, steps[..n]);
      RetriesPaidStep(p, g, Final(p, g, steps[..n]), steps[n], w, hit);
    }
    var s := Final(p, g, steps);
    ForeignHitsGrow(s.log, |Seen(s, w)|, w, hit);
  }

  // ---- every run ends ----

  function Retries(s: State): int {
    Sum(|s.workers|, (w: nat) => if w < |s.workers| then s.workers[w].retries else 0)
  }

  lemma {:induction false} CommitsByAll(log: seq<Commit>, n: nat)
    requires forall j :: 0 <= j < |log| ==> log[j].worker < n
    ensures Sum(n, (w: nat) => By(log, w)) == |log|
  {
    var f := (w: nat) => By(log, w);
    if log == [] {
      SumConstant(n, f, 0);
    } else {
      var c := log[|log| - 1];
      var g := (w: nat) => By(log[..|log| - 1], w);
      CommitsByAll(log[..|log| - 1], n);
      SumChanged(n, g, f, c.worker);
    }
  }

  lemma {:induction false} ForeignIsRest(log: seq<Commit>, w: nat)
    ensures ForeignHits(log, w, _ => true) == |log| - By(log, w)
  {
    if log != [] {
      ForeignIsRest(log[..|log| - 1], w);
    }
  }

  lemma {:induction false} SumDifference(n: nat, c: int, f: nat -> int, g: nat -> int)
    requires forall w :: 0 <= w < n ==> g(w) == c - f(w)
    ensures Sum(n, g) == n * c - Sum(n, f)
  {
    if n > 0 {
      SumDifference(n - 1, c, f, g);
      assert (n - 1) * c + c == n * c;
    }
  }

  /** Refusals never outnumber the commits of the other workers. */
  ghost predicate RetriesForeign(s: State) {
    forall w :: 0 <= w < |s.workers| ==> s.workers[w].retries + By(s.log, w) <= |s.log|
  }

  lemma RetriesAreForeign(p: Program, g: Guard, steps: seq<Step>)
    requires IsRun(p, g, steps)
    ensures RetriesForeign(Final(p, g, steps))
  {
    var s := Final(p, g, steps);
    ShapeHolds(p, g, steps);
    forall w | 0 <= w < |s.workers| ensures s.workers[w].retries + By(s.log, w) <= |s.log| {
      RefusalsCharged(p, g, steps, w, _ => true);
      ForeignIsRest(s.log, w);
    }
  }

  lemma LogBounded(p: Program, s: State)
    requires Shape(p, s)
    ensures Sum(p.workers, (w: nat) => By(s.log, w)) == |s.log| <= p.workers * p.actions
  {
    forall j | 0 <= j < |s.log| ensures s.log[j].worker < p.workers { assert CommitOk(p, s, j); }
    CommitsByAll(s.log, p.workers);
    var f: nat -> int := (w: nat) => By(s.log, w);
    var c: nat -> int := (_: nat) => p.actions;
    forall w | 0 <= w < p.workers ensures f(w) <= c(w) { assert WorkerOk(p, s, w); }
    SumMonotone(p.workers, f, c);
    SumConstant(p.workers, c, p.actions);
  }

  /** A complete run has committed every action once. */
  lemma CompleteLog(p: Program, s: State)
    requires Shape(p, s) && Complete(p, s)
    ensures |s.log| == p.workers * p.actions
  {
    LogBounded(p, s);
    var f: nat -> int := (w: nat) => By(s.log, w);
    forall w | 0 <= w < p.workers ensures f(w) == p.actions { assert WorkerOk(p, s, w); }
    SumConstant(p.workers, f, p.actions);
  }

  lemma OneLess(n: nat, c: nat)
    requires n > 0
    ensures n * c - c == (n - 1) * c
  {
  }

  lemma RetriesSummed(p: Program, s: State)
    requires Shape(p, s) && RetriesForeign(s) && p.workers > 0
    ensures Retries(s) <= (p.workers - 1) * |s.log|
  {
    hide Sum, By;
    var own: nat -> int := (w: nat) => By(s.log, w);
    var rest: nat -> int := (w: nat) => |s.log| - By(s.log, w);
    var retries: nat -> int := (w: nat) => if w < |s.workers| then s.workers[w].retries else 0;
    SumMonotone(p.workers, retries, rest);
    SumDifference(p.workers, |s.log|, own, rest);
    LogBounded(p, s);
    OneLess(p.workers, |s.log|);
  }

  /** The global bound on refusals, whatever the cause the guard gives for each. */
  lemma RetriesBounded(p: Program, g: Guard, steps: seq<Step>)
    requires IsRun(p, g, steps) && p.workers > 0
    ensures Retries(Final(p, g, steps)) <= (p.workers - 1) * |Final(p, g, steps).log|
    ensures Retries(Final(p, g, steps)) <= (p.workers - 1) * (p.workers * p.actions)
  {
    var s := Final(p, g, steps);
    ShapeHolds(p, g, steps);
    RetriesAreForeign(p, g, steps);
    RetriesSummed(p, s);
    LogBounded(p, s);
    Scale(p.workers - 1, |s.log|, p.workers * p.actions);
  }

  lemma Scale(k: nat, a: nat, b: nat)
    requires a <= b
    ensures k * a <= k * b
  {
  }

  function StepsOf(me: Worker): nat {
    3 * (me.done + me.retries) + match me.phase case Idle => 0 case Snapped(_) => 1 case Thinking(_, _) => 2
  }

  lemma {:induction false} StepsCounted(p: Program, g: Guard, steps: seq<Step>)
    requires IsRun(p, g, steps)
    ensures var s := Final(p, g, steps);
      |steps| == Sum(p.workers, (w: nat) => if w < |s.workers| then StepsOf(s.workers[w]) else 0)
  {
    var t := Final(p, g, steps);
    var f := (w: nat) => if w < |t.workers| then StepsOf(t.workers[w]) else 0;
    if steps == [] {
      SumConstant(p.workers, f, 0);
    } else {
      var n := |steps| - 1;
      var s := Final(p, g, steps[..n]);
      StepsCounted(p, g, steps[..n]);
      var e := (w: nat) => if w < |s.workers| then StepsOf(s.workers[w]) else 0;
      SumChanged(p.workers, e, f, steps[n].w);
    }
  }

  lemma StepsSummed(p: Program, s: State)
    requires Shape(p, s) && RetriesForeign(s)
    ensures Sum(p.workers, (w: nat) => if w < |s.workers| then StepsOf(s.workers[w]) else 0)
         <= p.workers * (3 * (p.workers * p.actions) + 2)
  {
    var f: nat -> int := (w: nat) => if w < |s.workers| then StepsOf(s.workers[w]) else 0;
    var cap: nat -> int := (w: nat) => 3 * |s.log| + 2;
    forall w | 0 <= w < p.workers ensures f(w) <= cap(w) { assert WorkerOk(p, s, w); }
    SumMonotone(p.workers, f, cap);
    SumConstant(p.workers, cap, 3 * |s.log| + 2);
    LogBounded(p, s);
    Scale(p.workers, 3 * |s.log| + 2, 3 * (p.workers * p.actions) + 2);
  }

  /** No run is longer than this, so no schedule retries for ever. */
  lemma RunsBounded(p: Program, g: Guard, steps: seq<Step>)
    requires IsRun(p, g, steps)
    ensures |steps| <= p.workers * (3 * (p.workers * p.actions) + 2)
  {
    ShapeHolds(p, g, steps);
    StepsCounted(p, g, steps);
    RetriesAreForeign(p, g, steps);
    StepsSummed(p, Final(p, g, steps));
  }

  /** A worker with work left can always take a step; so a run nobody can extend is complete. */
  lemma StuckRunsAreComplete(p: Program, g: Guard, steps: seq<Step>)
    requires IsRun(p, g, steps)
    requires forall step :: !IsRun(p, g, steps + [step])
    ensures Complete(p, Final(p, g, steps))
  {
    var s := Final(p, g, steps);
    ShapeHolds(p, g, steps);
    forall w | 0 <= w < p.workers ensures s.workers[w].done == p.actions {
      var me := s.workers[w];
      assert WorkerOk(p, s, w);
      if me.done < p.actions {
        var step := match me.phase
          case Idle => Snap(w)
          case Snapped(_) => Read(w)
          case Thinking(_, _) => if g == NoGuard || !Overlap(p, s, w) then Accept(w) else Refuse(w);
        RunExtends(p, g, steps, step);
      }
    }
  }
}
