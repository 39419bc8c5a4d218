/** The account driver: each action bumps one balance and appends audit rows under fresh ids. */
module Accounts {
  import opened Options
  import opened Counting
  import opened GuardedStore

  const HOT: nat := 4
  const BAND: int := 1_000_000

  /** A worker's user for its `i`-th action: a shared few, or a slice of its own. */
  function UserAt(users: nat, hot: bool, w: nat, workers: nat, i: nat): nat {
    if hot then i % HOT
    else var per := users / (if workers == 0 then 1 else workers);
         w * per + i % (if per == 0 then 1 else per)
  }

  /** Audit ids continue from attempt to attempt, refused ones included. */
  function AuditBase(ops: nat, w: nat, attempt: nat): int { w * BAND + ops * attempt }

  function AuditIds(ops: nat, w: nat, attempt: nat): set<int> { Range(AuditBase(ops, w, attempt), ops) }

  /** The statements of one transaction: each operation stores the same new balance and inserts
      an audit row under the next id. */
  function Act(ops: nat, user: int, id: int, read: Option<Value>): (m: map<Cell, Value>)
    ensures forall k :: Audit(k) in m <==> id < k <= id + ops
    ensures forall u :: Balance(u) in m <==> u == user && ops > 0 && read.Some?
    ensures ops > 0 && read.Some? && read.value.Num? ==> m[Balance(user)] == Num(read.value.n + 1)
  {
    if ops == 0 then map[]
    else
      var bal := if read.Some? && read.value.Num? then read.value.n else 0;
      Act(ops - 1, user, id, read)
      + (if read.None? then map[] else map[Balance(user) := Num(bal + 1)])
      + map[Audit(id + ops) := Note(user, bal + 1)]
  }

  function Opened(users: nat): (m: map<Cell, Value>)
    ensures forall c :: c in m <==> c.Balance? && 0 <= c.acct < users
    ensures forall c :: c in m ==> m[c] == Num(0)
  {
    if users == 0 then map[] else Opened(users - 1)[Balance(users - 1) := Num(0)]
  }

  function Actors(users: nat, hot: bool, workers: nat, actions: nat, ops: nat): Program {
    Program(workers, actions, Opened(users),
            (w: nat, i: nat) => Balance(UserAt(users, hot, w, workers, i)),
            (w: nat, i: nat, r: nat, v: Option<Value>) =>
              Act(ops, UserAt(users, hot, w, workers, i), AuditBase(ops, w, i + r), v))
  }

  function BalanceOf(store: map<Cell, Value>, u: nat): int {
    match Lookup(store, Balance(u)) case Some(Num(n)) => n case _ => 0
  }

  function Total(store: map<Cell, Value>, users: nat): int { Sum(users, (u: nat) => BalanceOf(store, u)) }

  function AuditRows(store: map<Cell, Value>): set<int> {
    set c | c in store && c.Audit? :: c.id
  }

  // ---- users and bands ----

  lemma SliceFits(users: nat, workers: nat, w: nat)
    requires w < workers
    ensures w * (users / workers) + users / workers <= users
  {
    var per := users / workers;
    assert workers * per <= users;
    Scale(per, w + 1, workers);
    assert w * per + per == per * (w + 1);
  }

  lemma UserInRange(users: nat, hot: bool, w: nat, workers: nat, i: nat)
    requires w < workers && users >= HOT
    ensures UserAt(users, hot, w, workers, i) < users
  {
    if !hot {
      var per := users / workers;
      SliceFits(users, workers, w);
      if per == 0 {
        assert w * per == 0;
      }
    }
  }

  ghost predicate InBand(ops: nat, c: Commit) { ops * (c.action + c.attempt + 1) <= BAND }

  lemma BandsApart(ops: nat, u: nat, a: nat, v: nat, b: nat)
    requires ops * (a + 1) <= BAND && ops * (b + 1) <= BAND && (u == v ==> a < b)
    ensures AuditBase(ops, u, a) + ops <= AuditBase(ops, v, b) || AuditBase(ops, v, b) + ops <= AuditBase(ops, u, a)
  {
    assert ops * (a + 1) == ops * a + ops && ops * (b + 1) == ops * b + ops;
    if u == v {
      Scale(ops, a + 1, b);
    } else if u < v {
      assert u * BAND + BAND <= v * BAND;
    } else {
      assert v * BAND + BAND <= u * BAND;
    }
  }

  /** Ids of two different transactions never meet while their workers stay inside their bands. */
  lemma IdsDisjoint(ops: nat, c: Commit, d: Commit)
    requires InBand(ops, c) && InBand(ops, d)
    requires c.worker == d.worker ==> c.action + c.attempt < d.action + d.attempt
    ensures AuditIds(ops, c.worker, c.action + c.attempt) !! AuditIds(ops, d.worker, d.action + d.attempt)
  {
    hide AuditBase;
    BandsApart(ops, c.worker, c.action + c.attempt, d.worker, d.action + d.attempt);
  }

  // ---- conservation along the log ----

  ghost predicate LogOk(workers: nat, ops: nat, log: seq<Commit>) {
    && (forall j :: 0 <= j < |log| ==> log[j].worker < workers && InBand(ops, log[j]))
    && (forall i, j :: 0 <= i < j < |log| && log[i].worker == log[j].worker
          ==> log[i].action + log[i].attempt < log[j].action + log[j].attempt)
  }

  function LoggedIds(ops: nat, log: seq<Commit>): set<int> {
    if log == [] then {}
    else var c := log[|log| - 1];
         LoggedIds(ops, log[..|log| - 1]) + AuditIds(ops, c.worker, c.action + c.attempt)
  }

  lemma {:induction false} LoggedIdsFresh(workers: nat, ops: nat, log: seq<Commit>, m: nat, d: Commit)
    requires m <= |log| && LogOk(workers, ops, log + [d])
    ensures LoggedIds(ops, log[..m]) !! AuditIds(ops, d.worker, d.action + d.attempt)
  {
    hide AuditIds, InBand;
    if m > 0 {
      assert log[..m][..m - 1] == log[..m - 1];
      LoggedIdsFresh(workers, ops, log, m - 1, d);
      assert (log + [d])[m - 1] == log[m - 1] && (log + [d])[|log|] == d;
      IdsDisjoint(ops, log[m - 1], d);
    }
  }

  ghost predicate Balanced(store: map<Cell, Value>, users: nat) {
    forall u :: 0 <= u < users ==> Balance(u) in store && store[Balance(u)].Num?
  }

  /** One committed transaction adds one to one balance and its own rows to the audit table. */
  lemma CommitEffect(users: nat, hot: bool, p: Program, ops: nat, before: map<Cell, Value>, c: Commit)
    requires p == Actors(users, hot, p.workers, p.actions, ops) && ops >= 1 && users >= HOT && c.worker < p.workers
    requires Balanced(before, users)
    ensures var after := before + CommitWrites(p, before, c);
      && Balanced(after, users)
      && Total(after, users) == Total(before, users) + 1
      && AuditRows(after) == AuditRows(before) + AuditIds(ops, c.worker, c.action + c.attempt)
  {
    var u := UserAt(users, hot, c.worker, p.workers, c.action);
    UserInRange(users, hot, c.worker, p.workers, c.action);
    var id := AuditBase(ops, c.worker, c.action + c.attempt);
    var writes := CommitWrites(p, before, c);
    assert writes == Act(ops, u, id, Some(before[Balance(u)]));
    var after := before + writes;
    var e: nat -> int := (v: nat) => BalanceOf(before, v);
    var f: nat -> int := (v: nat) => BalanceOf(after, v);
    SumChanged(users, e, f, u);
    forall k ensures k in AuditRows(after) <==> k in AuditRows(before) || id < k <= id + ops {
      assert k in AuditRows(after) <==> Audit(k) in after;
      assert k in AuditRows(before) <==> Audit(k) in before;
    }
  }

  lemma NothingYet(users: nat)
    ensures Balanced(Opened(users), users) && Total(Opened(users), users) == 0 && AuditRows(Opened(users)) == {}
  {
    var m := Opened(users);
    var f: nat -> int := (u: nat) => BalanceOf(m, u);
    forall u | 0 <= u < users ensures f(u) == 0 {
      assert m[Balance(u)] == Num(0);
    }
    SumConstant(users, f, 0);
  }

  lemma AuditIdsSize(ops: nat, w: nat, attempt: nat)
    ensures |AuditIds(ops, w, attempt)| == ops
  {
  }

  lemma LogOkPrefix(workers: nat, ops: nat, log: seq<Commit>)
    requires log != [] && LogOk(workers, ops, log)
    ensures LogOk(workers, ops, log[..|log| - 1])
  {
  }

  lemma MulStep(a: nat, n: nat)
    ensures a * (n + 1) == a * n + a
  {
  }

  lemma {:induction false} LoggedIdsCounted(workers: nat, ops: nat, log: seq<Commit>)
    requires LogOk(workers, ops, log)
    ensures |LoggedIds(ops, log)| == ops * |log|
  {
    hide AuditIds, LogOk;
    if log != [] {
      var n, c := |log| - 1, log[|log| - 1];
      var old_, new_ := LoggedIds(ops, log[..n]), AuditIds(ops, c.worker, c.action + c.attempt);
      LogOkPrefix(workers, ops, log);
      LoggedIdsCounted(workers, ops, log[..n]);
      AuditIdsSize(ops, c.worker, c.action + c.attempt);
      assert log[..n] + [c] == log && log[..n][..n] == log[..n];
      LoggedIdsFresh(workers, ops, log[..n], n, c);
      assert LoggedIds(ops, log) == old_ + new_;
      assert |old_ + new_| == |old_| + |new_| == ops * n + ops;
      MulStep(ops, n);
    }
  }

  lemma {:induction false} Conserved(users: nat, hot: bool, p: Program, ops: nat, log: seq<Commit>)
    requires p == Actors(users, hot, p.workers, p.actions, ops) && ops >= 1 && users >= HOT
    requires LogOk(p.workers, ops, log)
    ensures Balanced(Replay(p, log), users) && Total(Replay(p, log), users) == |log|
    ensures AuditRows(Replay(p, log)) == LoggedIds(ops, log)
  {
    hide UserAt, AuditBase, AuditIds, Act, Balanced, Total, AuditRows, InBand;
    if log == [] {
      NothingYet(users);
    } else {
      var n := |log| - 1;
      var c := log[n];
      Conserved(users, hot, p, ops, log[..n]);
      CommitEffect(users, hot, p, ops, Replay(p, log[..n]), c);
    }
  }

  /** No worker's attempts so far have used up its band of audit ids. */
  ghost predicate InsideBands(ops: nat, s: State) {
    forall w :: 0 <= w < |s.workers| ==> ops * (s.workers[w].done + s.workers[w].retries) <= BAND
  }

  lemma LogOkHolds(p: Program, ops: nat, s: State)
    requires Shape(p, s) && InsideBands(ops, s)
    ensures LogOk(p.workers, ops, s.log)
  {
    forall j | 0 <= j < |s.log| ensures s.log[j].worker < p.workers && InBand(ops, s.log[j]) {
      var c := s.log[j];
      assert CommitOk(p, s, j) && WorkerOk(p, s, c.worker);
      ByBefore(s.log, j, |s.log|, c.worker);
      assert s.log[..|s.log|] == s.log;
      var me := s.workers[c.worker];
      Scale(ops, c.action + c.attempt + 1, me.done + me.retries);
    }
    forall i, j | 0 <= i < j < |s.log| && s.log[i].worker == s.log[j].worker
      ensures s.log[i].action + s.log[i].attempt < s.log[j].action + s.log[j].attempt
    {
      assert CommitOk(p, s, i) && CommitOk(p, s, j);
      ByBefore(s.log, i, j, s.log[i].worker);
    }
  }

  lemma {:induction false} ByBefore(log: seq<Commit>, i: nat, m: nat, w: nat)
    requires i < m <= |log| && log[i].worker == w
    ensures By(log[..i], w) < By(log[..m], w)
  {
    assert log[..m][..m - 1] == log[..m - 1];
    if i < m - 1 {
      ByBefore(log, i, m - 1, w);
    }
  }

  /** Conservation: in every guarded run the balances add up to the committed actions, and the
      audit table holds one row per operation of each, no id used twice, as long as no worker's
      attempts have used up its band of ids. */
  lemma BalancesAndAuditConserved(users: nat, hot: bool, workers: nat, actions: nat, ops: nat, g: Guard, steps: seq<Step>)
    requires g != NoGuard && ops >= 1 && users >= HOT && IsRun(Actors(users, hot, workers, actions, ops), g, steps)
    requires InsideBands(ops, Final(Actors(users, hot, workers, actions, ops), g, steps))
    ensures var s := Final(Actors(users, hot, workers, actions, ops), g, steps);
      Total(s.store, users) == |s.log| && |AuditRows(s.store)| == ops * |s.log|
  {
    var p := Actors(users, hot, workers, actions, ops);
    var s := Final(p, g, steps);
    hide UserAt, Act, Total, AuditRows, InsideBands;
    ShapeHolds(p, g, steps);
    Serialisable(p, g, steps);
    LogOkHolds(p, ops, s);
    Conserved(users, hot, p, ops, s.log);
    LoggedIdsCounted(workers, ops, s.log);
  }

  /** A finished run: one unit of balance per action and `ops` audit rows per action, retries or not. */
  lemma FinishedRunTotals(users: nat, hot: bool, workers: nat, actions: nat, ops: nat, g: Guard, steps: seq<Step>)
    requires g != NoGuard && ops >= 1 && users >= HOT && IsRun(Actors(users, hot, workers, actions, ops), g, steps)
    requires InsideBands(ops, Final(Actors(users, hot, workers, actions, ops), g, steps))
    requires Complete(Actors(users, hot, workers, actions, ops), Final(Actors(users, hot, workers, actions, ops), g, steps))
    ensures var s := Final(Actors(users, hot, workers, actions, ops), g, steps);
      Total(s.store, users) == workers * actions && |AuditRows(s.store)| == ops * (workers * actions)
  {
    hide Total, AuditRows, InsideBands, IsRun, Final;
    var p := Actors(users, hot, workers, actions, ops);
    BalancesAndAuditConserved(users, hot, workers, actions, ops, g, steps);
    ShapeHolds(p, g, steps);
    CompleteLog(p, Final(p, g, steps));
  }

  /** A sufficient condition known before the run: the retry bound keeps every worker in its band. */
  lemma BandsSuffice(p: Program, ops: nat, g: Guard, steps: seq<Step>)
    requires IsRun(p, g, steps) && ops * (p.workers * p.actions) <= BAND
    ensures InsideBands(ops, Final(p, g, steps))
  {
    var s := Final(p, g, steps);
    ShapeHolds(p, g, steps);
    RetriesAreForeign(p, g, steps);
    LogBounded(p, s);
    forall w | 0 <= w < |s.workers| ensures ops * (s.workers[w].done + s.workers[w].retries) <= BAND {
      assert WorkerOk(p, s, w);
      Scale(ops, s.workers[w].done + s.workers[w].retries, p.workers * p.actions);
    }
  }

  lemma NoOps(user: int, id: int, read: Option<Value>)
    ensures Act(0, user, id, read) == map[]
  {
  }

  lemma {:induction false} NoOpsNoWrites(users: nat, hot: bool, p: Program, log: seq<Commit>)
    requires p == Actors(users, hot, p.workers, p.actions, 0)
    ensures Replay(p, log) == Opened(users)
  {
    if log != [] {
      NoOpsNoWrites(users, hot, p, log[..|log| - 1]);
      var before := Replay(p, log[..|log| - 1]);
      var c := log[|log| - 1];
      var user, read := UserAt(users, hot, c.worker, p.workers, c.action), Lookup(before, p.target(c.worker, c.action));
      assert CommitWrites(p, before, c) == Act(0, user, AuditBase(0, c.worker, c.action + c.attempt), read);
      NoOps(user, AuditBase(0, c.worker, c.action + c.attempt), read);
      assert before + map[] == before;
    }
  }

  /** With no operation per action nothing is ever written, so the balances match the number of
      committed actions exactly when there is at least one operation or no commit at all. */
  lemma ConservedIffSomeOps(users: nat, hot: bool, workers: nat, actions: nat, ops: nat, g: Guard, steps: seq<Step>)
    requires g != NoGuard && users >= HOT && IsRun(Actors(users, hot, workers, actions, ops), g, steps)
    requires InsideBands(ops, Final(Actors(users, hot, workers, actions, ops), g, steps))
    ensures var s := Final(Actors(users, hot, workers, actions, ops), g, steps);
      Total(s.store, users) == |s.log| <==> ops >= 1 || s.log == []
  {
    var p := Actors(users, hot, workers, actions, ops);
    if ops >= 1 {
      BalancesAndAuditConserved(users, hot, workers, actions, ops, g, steps);
    } else {
      Serialisable(p, g, steps);
      NoOpsNoWrites(users, hot, p, Final(p, g, steps).log);
      NothingYet(users);
    }
  }

  /** One worker, one action of no operations: it commits, and no balance moves. */
  lemma NoOpsCommitMovesNothing() returns (steps: seq<Step>)
    ensures var p := Actors(HOT, false, 1, 1, 0);
      && IsRun(p, Sound, steps) && |Final(p, Sound, steps).log| == 1
      && Total(Final(p, Sound, steps).store, HOT) == 0
  {
    hide Total, Act, UserAt;
    var p := Actors(HOT, false, 1, 1, 0);
    var idle := Worker(0, 0, Idle);
    assert Init(p).workers == [idle];
    RunExtends(p, Sound, [], Snap(0));
    var s1 := [] + [Snap(0)];
    assert Final(p, Sound, s1) == State(p.init, [], [Worker(0, 0, Snapped(0))]);
    hide IsRun, Final;
    RunExtends(p, Sound, s1, Read(0));
    var s2 := s1 + [Read(0)];
    RunExtends(p, Sound, s2, Accept(0));
    steps := s2 + [Accept(0)];
    Serialisable(p, Sound, steps);
    NoOpsNoWrites(HOT, false, p, Final(p, Sound, steps).log);
    NothingYet(HOT);
  }
}
