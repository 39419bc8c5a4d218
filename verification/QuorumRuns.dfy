/** The counter-quorum flush with its editors: every interleaving, no clock, no deadlock. */
module QuorumRuns {
  import opened Counting
  import opened CounterQuorum

  /** Where an editor is in its loop; `k` actions are behind it, `q` is the position it drew. */
  datatype Editor =
    | Thinking(k: nat)
    | Composing(k: nat)
    | Drawn(k: nat, q: nat)
    | Waiting(k: nat, q: nat)
    | Answered(k: nat, q: nat)
    | Left

  /** `beats[e]`: this editor publishes its position before it thinks. */
  datatype Config = Config(editors: nat, actions: nat, beats: seq<bool>)

  datatype State = State(clock: nat, channel: seq<Msg>, editors: seq<Editor>, service: Service, answered: seq<Job>)

  datatype Step =
    | SendBeat(e: nat)
    | Draw(e: nat)
    | SendJob(e: nat)
    | TakeReply(e: nat)
    | Leave(e: nat)
    | Serve(verdicts: seq<bool>)

  function Init(c: Config): State {
    State(1, [], seq(c.editors, _ => Thinking(0)), Started(c.editors), [])
  }

  predicate Enabled(c: Config, s: State, step: Step) {
    if step.Serve? then
      s.channel != [] && KnownMsg(s.service, s.channel[0]) && Verdicts(s.service, s.channel[0], step.verdicts)
    else
      && step.e < c.editors == |s.editors| == |c.beats|
      && var me := s.editors[step.e];
         match step
         case SendBeat(e) => me.Thinking? && me.k < c.actions && c.beats[e]
         case Draw(e) => me.Composing? || (me.Thinking? && me.k < c.actions && !c.beats[e])
         case SendJob(_) => me.Drawn?
         case TakeReply(_) => me.Answered?
         case Leave(_) => me.Thinking? && me.k >= c.actions
  }

  function Reply(editors: seq<Editor>, jobs: seq<Job>): (r: seq<Editor>)
    ensures |r| == |editors|
  {
    seq(|editors|, i requires 0 <= i < |editors| =>
      if editors[i].Waiting? && Job(i, editors[i].q) in jobs then Answered(editors[i].k, editors[i].q) else editors[i])
  }

  function FlushedJobs(s: State): seq<Job>
    requires s.channel != [] && KnownMsg(s.service, s.channel[0])
  {
    var sv := Heard(s.service, s.channel[0]);
    if Ready(sv) then sv.pending else []
  }

  function Next(c: Config, s: State, step: Step): State
    requires Enabled(c, s, step)
  {
    match step
    case SendBeat(e) =>
      s.(channel := s.channel + [Beat(e, s.clock)], editors := s.editors[e := Composing(s.editors[e].k)])
    case Draw(e) =>
      s.(clock := s.clock + 1, editors := s.editors[e := Drawn(s.editors[e].k, s.clock)])
    case SendJob(e) =>
      s.(channel := s.channel + [Submit(Job(e, s.editors[e].q))],
         editors := s.editors[e := Waiting(s.editors[e].k, s.editors[e].q)])
    case TakeReply(e) =>
      s.(editors := s.editors[e := Thinking(s.editors[e].k + 1)])
    case Leave(e) =>
      s.(channel := s.channel + [Gone(e)], editors := s.editors[e := Left])
    case Serve(v) =>
      State(s.clock, s.channel[1..], Reply(s.editors, FlushedJobs(s)),
            Served(s.service, s.channel[0], v), s.answered + FlushedJobs(s))
  }

  // ---- what every step keeps ----

  function Submits(channel: seq<Msg>): seq<Job> {
    if channel == [] then []
    else (if channel[0].Submit? then [channel[0].job] else []) + Submits(channel[1..])
  }

  /** Submitted and not yet answered: first those in the service's hands, then those in flight. */
  function Outstanding(s: State): seq<Job> { s.service.pending + Submits(s.channel) }

  ghost predicate EditorOk(c: Config, s: State, e: nat)
    requires e < |s.editors|
  {
    var me := s.editors[e];
    && (me.Thinking? ==> me.k <= c.actions)
    && (!me.Left? && !me.Thinking? ==> me.k < c.actions)
    && (me.Drawn? || me.Waiting? || me.Answered? ==> 1 <= me.q < s.clock)
    && (me.Waiting? ==> Job(e, me.q) in Outstanding(s))
    && (e < |s.service.live| && !s.service.live[e] ==> me.Left?)
    && (e < |s.service.live| && s.service.live[e] && me.Left? ==> Gone(e) in s.channel)
  }

  ghost predicate JobOk(s: State, i: nat)
    requires i < |Outstanding(s)|
  {
    var j := Outstanding(s)[i];
    j.editor < |s.editors| && s.editors[j.editor].Waiting? && s.editors[j.editor].q == j.position
  }

  ghost predicate EditorsOk(c: Config, s: State) {
    && |s.editors| == c.editors
    && (forall e :: 0 <= e < c.editors ==> EditorOk(c, s, e))
    && (forall i :: 0 <= i < |s.channel| && s.channel[i].Gone? ==>
          s.channel[i].editor < c.editors && s.editors[s.channel[i].editor].Left?)
  }

  /** Every outstanding job is one waiting editor's, and no editor has two. */
  ghost predicate JobsOk(s: State) {
    && (forall i :: 0 <= i < |Outstanding(s)| ==> JobOk(s, i))
    && (forall i, j :: 0 <= i < j < |Outstanding(s)| ==> Outstanding(s)[i].editor != Outstanding(s)[j].editor)
  }

  ghost predicate PendingOk(sv: Service, i: nat)
    requires i < |sv.pending|
  {
    Known(sv, sv.pending[i].editor) && sv.pos[sv.pending[i].editor] >= sv.pending[i].position
  }

  /** A job in the service's hands has published its position, and the round is still open. */
  ghost predicate ServiceOk(c: Config, s: State) {
    && c.editors == |s.service.pos| == |s.service.live|
    && (forall i :: 0 <= i < |s.channel| ==> KnownMsg(s.service, s.channel[i]))
    && (forall i :: 0 <= i < |s.service.pending| ==> PendingOk(s.service, i))
    && !Ready(s.service)
  }

  ghost predicate Inv(c: Config, s: State) {
    1 <= s.clock && EditorsOk(c, s) && JobsOk(s) && ServiceOk(c, s)
  }

  lemma {:induction false} SubmitsAppend(a: seq<Msg>, m: Msg)
    ensures Submits(a + [m]) == Submits(a) + if m.Submit? then [m.job] else []
  {
    if a == [] {
      assert a + [m] == [m] && [m][1..] == [];
    } else {
      assert (a + [m])[1..] == a[1..] + [m] && (a + [m])[0] == a[0];
      SubmitsAppend(a[1..], m);
    }
  }

  lemma EditorStepOutstanding(c: Config, s: State, step: Step)
    requires Enabled(c, s, step) && !step.Serve?
    ensures Outstanding(Next(c, s, step))
         == Outstanding(s) + if step.SendJob? then [Job(step.e, s.editors[step.e].q)] else []
  {
    var t := Next(c, s, step);
    if |t.channel| > |s.channel| {
      SubmitsAppend(s.channel, t.channel[|s.channel|]);
    }
  }

  lemma EditorStepEditors(c: Config, s: State, step: Step)
    requires Inv(c, s) && Enabled(c, s, step) && !step.Serve?
    ensures EditorsOk(c, Next(c, s, step))
  {
    hide Ready, Outstanding;
    var t, e := Next(c, s, step), step.e;
    EditorStepOutstanding(c, s, step);
    assert EditorOk(c, s, e);
    forall f | 0 <= f < c.editors ensures EditorOk(c, t, f) {
      assert EditorOk(c, s, f);
      if step.Leave? {
        assert t.channel[|s.channel|] == Gone(e);
      }
      if t.editors[f].Waiting? {
        var o := Outstanding(t);
        if f == e {
          assert o[|o| - 1] == Job(e, s.editors[e].q);
        }
      }
    }
  }

  lemma EditorStepJobs(c: Config, s: State, step: Step)
    requires Inv(c, s) && Enabled(c, s, step) && !step.Serve?
    ensures JobsOk(Next(c, s, step))
  {
    hide Ready, Outstanding;
    var t, e := Next(c, s, step), step.e;
    EditorStepOutstanding(c, s, step);
    forall i | 0 <= i < |Outstanding(s)| ensures Outstanding(s)[i].editor != e || t.editors[e] == s.editors[e] {
      assert JobOk(s, i);
    }
    forall i | 0 <= i < |Outstanding(t)| ensures JobOk(t, i) {
      if i < |Outstanding(s)| {
        assert JobOk(s, i);
      }
    }
  }

  /** An editor's own step: nothing of the service changes, and at most one message is sent. */
  lemma EditorStepInv(c: Config, s: State, step: Step)
    requires Inv(c, s) && Enabled(c, s, step) && !step.Serve?
    ensures Inv(c, Next(c, s, step))
  {
    hide Ready, Outstanding, EditorsOk, JobsOk;
    EditorStepEditors(c, s, step);
    EditorStepJobs(c, s, step);
    var t := Next(c, s, step);
    assert s.service == t.service;
  }

  // ---- the service's step ----

  /** Hearing a message moves a submission from flight into the service's hands, in place. */
  lemma HeardOutstanding(s: State)
    requires s.channel != [] && KnownMsg(s.service, s.channel[0])
    ensures Heard(s.service, s.channel[0]).pending + Submits(s.channel[1..]) == Outstanding(s)
  {
  }

  lemma ServeOutstanding(c: Config, s: State, step: Step)
    requires Enabled(c, s, step) && step.Serve?
    ensures Outstanding(s) == FlushedJobs(s) + Outstanding(Next(c, s, step))
  {
    HeardOutstanding(s);
  }

  lemma ServeJobs(c: Config, s: State, step: Step)
    requires Inv(c, s) && Enabled(c, s, step) && step.Serve?
    ensures JobsOk(Next(c, s, step))
  {
    hide Ready, Outstanding, FlushedJobs;
    var t, done := Next(c, s, step), FlushedJobs(s);
    var m := |done|;
    ServeOutstanding(c, s, step);
    forall i | 0 <= i < |Outstanding(t)| ensures JobOk(t, i) {
      var j := Outstanding(t)[i];
      assert JobOk(s, m + i) && Outstanding(s)[m + i] == j;
      forall k | 0 <= k < m ensures done[k] != j {
        assert Outstanding(s)[k] == done[k];
      }
    }
    forall i, j | 0 <= i < j < |Outstanding(t)| ensures Outstanding(t)[i].editor != Outstanding(t)[j].editor {
      assert Outstanding(s)[m + i] == Outstanding(t)[i] && Outstanding(s)[m + j] == Outstanding(t)[j];
    }
  }

  lemma ServeEditors(c: Config, s: State, step: Step)
    requires Inv(c, s) && Enabled(c, s, step) && step.Serve?
    ensures EditorsOk(c, Next(c, s, step))
  {
    hide Ready, Outstanding, FlushedJobs;
    var t, done := Next(c, s, step), FlushedJobs(s);
    ServeOutstanding(c, s, step);
    forall e | 0 <= e < c.editors ensures EditorOk(c, t, e) {
      assert EditorOk(c, s, e);
      if t.editors[e].Waiting? {
        assert Job(e, s.editors[e].q) in done + Outstanding(t);
      }
      if t.service.live[e] && t.editors[e].Left? {
        assert s.service.live[e] && s.editors[e].Left?;
        var i :| 0 <= i < |s.channel| && s.channel[i] == Gone(e);
        assert i > 0 && t.channel[i - 1] == Gone(e);
      }
    }
  }

  lemma ServeService(c: Config, s: State, step: Step)
    requires Inv(c, s) && Enabled(c, s, step) && step.Serve?
    ensures ServiceOk(c, Next(c, s, step))
  {
    hide Round, Members, Spoken, Outstanding, EditorsOk, JobsOk;
    var t, sv, msg := Next(c, s, step), s.service, s.channel[0];
    forall i | 0 <= i < |t.channel| ensures KnownMsg(t.service, t.channel[i]) {
      assert t.channel[i] == s.channel[i + 1];
    }
    forall i | 0 <= i < |t.service.pending| ensures PendingOk(t.service, i) {
      if i < |sv.pending| {
        assert PendingOk(sv, i) && t.service.pending[i] == sv.pending[i];
      }
    }
  }

  lemma ServeInv(c: Config, s: State, step: Step)
    requires Inv(c, s) && Enabled(c, s, step) && step.Serve?
    ensures Inv(c, Next(c, s, step))
  {
    hide EditorsOk, JobsOk, ServiceOk;
    ServeJobs(c, s, step);
    ServeEditors(c, s, step);
    ServeService(c, s, step);
  }

  // ---- every submission is answered exactly once ----

  predicate Holding(me: Editor) { me.Drawn? || me.Waiting? }

  /** Positions are handed out once and answered once. */
  ghost predicate PositionsOk(s: State) {
    && (forall e, f :: 0 <= e < f < |s.editors| && Holding(s.editors[e]) && Holding(s.editors[f])
          ==> s.editors[e].q != s.editors[f].q)
    && (forall e, i :: 0 <= e < |s.editors| && Holding(s.editors[e]) && 0 <= i < |s.answered|
          ==> s.answered[i].position != s.editors[e].q)
    && (forall i, j :: 0 <= i < j < |s.answered| ==> s.answered[i].position != s.answered[j].position)
    && (forall i :: 0 <= i < |s.answered| ==> 1 <= s.answered[i].position < s.clock)
  }

  function DrawsOf(c: Config, me: Editor): nat {
    match me
    case Thinking(k) => k
    case Composing(k) => k
    case Left => c.actions
    case Drawn(k, _) => k + 1
    case Waiting(k, _) => k + 1
    case Answered(k, _) => k + 1
  }

  function Draws(c: Config, s: State): int {
    Sum(|s.editors|, (e: nat) => if e < |s.editors| then DrawsOf(c, s.editors[e]) else 0)
  }

  function Unsent(s: State): int {
    Sum(|s.editors|, (e: nat) => if e < |s.editors| && s.editors[e].Drawn? then 1 else 0)
  }

  /** Every position drawn so far is unsent, outstanding or answered, and the tally agrees. */
  ghost predicate CountsOk(c: Config, s: State) {
    && s.clock - 1 == Draws(c, s)
    && s.clock - 1 == Unsent(s) + |Outstanding(s)| + |s.answered|
    && s.service.tally.members == |s.answered|
    && s.service.tally.committed + s.service.tally.lost == s.service.tally.members
  }

  lemma PositionsServe(c: Config, s: State, step: Step)
    requires Inv(c, s) && step.Serve? && Enabled(c, s, step) && PositionsOk(s)
    ensures PositionsOk(Next(c, s, step))
  {
    hide Ready, FlushedJobs, Outstanding;
    var t := Next(c, s, step);
    var done := FlushedJobs(s);
    ServeOutstanding(c, s, step);
    forall i | 0 <= i < |done|
      ensures done[i].editor < |s.editors| && s.editors[done[i].editor].Waiting?
              && s.editors[done[i].editor].q == done[i].position
    {
      assert JobOk(s, i) && Outstanding(s)[i] == done[i];
    }
    forall i, j | 0 <= i < j < |done| ensures done[i].editor != done[j].editor {
      assert Outstanding(s)[i] == done[i] && Outstanding(s)[j] == done[j];
    }
    forall e, i | 0 <= e < |t.editors| && Holding(t.editors[e]) && 0 <= i < |done|
      ensures done[i].position != t.editors[e].q
    {
      assert Holding(s.editors[e]) && Holding(s.editors[done[i].editor]);
    }
    forall i, j | 0 <= i < |s.answered| && 0 <= j < |done| ensures s.answered[i].position != done[j].position {
      assert Holding(s.editors[done[j].editor]);
    }
    forall i | 0 <= i < |done| ensures 1 <= done[i].position < s.clock {
      assert EditorOk(c, s, done[i].editor);
    }
    forall i, j | 0 <= i < j < |done| ensures done[i].position != done[j].position {
      assert Holding(s.editors[done[i].editor]) && Holding(s.editors[done[j].editor]);
    }
  }

  lemma PositionsEditor(c: Config, s: State, step: Step)
    requires Inv(c, s) && !step.Serve? && Enabled(c, s, step) && PositionsOk(s)
    ensures PositionsOk(Next(c, s, step))
  {
    hide Ready, FlushedJobs, Outstanding;
    forall e | 0 <= e < |s.editors| && Holding(s.editors[e]) ensures s.editors[e].q < s.clock {
      assert EditorOk(c, s, e);
    }
  }

  lemma PositionsStep(c: Config, s: State, step: Step)
    requires Inv(c, s) && Enabled(c, s, step) && PositionsOk(s)
    ensures PositionsOk(Next(c, s, step))
  {
    hide Inv, Next, PositionsOk;
    if step.Serve? {
      PositionsServe(c, s, step);
    } else {
      PositionsEditor(c, s, step);
    }
  }

  lemma CountsServe(c: Config, s: State, step: Step)
    requires Inv(c, s) && step.Serve? && Enabled(c, s, step) && CountsOk(c, s)
    ensures CountsOk(c, Next(c, s, step))
  {
    hide Ready, FlushedJobs, Outstanding;
    var t := Next(c, s, step);
    var d: nat -> int := (e: nat) => if e < |s.editors| then DrawsOf(c, s.editors[e]) else 0;
    var d': nat -> int := (e: nat) => if e < |t.editors| then DrawsOf(c, t.editors[e]) else 0;
    var u: nat -> int := (e: nat) => if e < |s.editors| && s.editors[e].Drawn? then 1 else 0;
    var u': nat -> int := (e: nat) => if e < |t.editors| && t.editors[e].Drawn? then 1 else 0;
    ServeOutstanding(c, s, step);
    SumMonotone(c.editors, d, d');
    SumMonotone(c.editors, d', d);
    SumMonotone(c.editors, u, u');
    SumMonotone(c.editors, u', u);
    ServeTally(s, step.verdicts);
  }

  lemma CountsEditor(c: Config, s: State, step: Step)
    requires Inv(c, s) && !step.Serve? && Enabled(c, s, step) && CountsOk(c, s)
    ensures CountsOk(c, Next(c, s, step))
  {
    hide Ready, FlushedJobs, Outstanding;
    var t := Next(c, s, step);
    var d: nat -> int := (e: nat) => if e < |s.editors| then DrawsOf(c, s.editors[e]) else 0;
    var d': nat -> int := (e: nat) => if e < |t.editors| then DrawsOf(c, t.editors[e]) else 0;
    var u: nat -> int := (e: nat) => if e < |s.editors| && s.editors[e].Drawn? then 1 else 0;
    var u': nat -> int := (e: nat) => if e < |t.editors| && t.editors[e].Drawn? then 1 else 0;
    assert EditorOk(c, s, step.e);
    EditorStepOutstanding(c, s, step);
    SumChanged(c.editors, d, d', step.e);
    SumChanged(c.editors, u, u', step.e);
  }

  lemma CountsStep(c: Config, s: State, step: Step)
    requires Inv(c, s) && Enabled(c, s, step) && CountsOk(c, s)
    ensures CountsOk(c, Next(c, s, step))
  {
    hide Inv, Next, CountsOk;
    if step.Serve? {
      CountsServe(c, s, step);
    } else {
      CountsEditor(c, s, step);
    }
  }

  lemma ServeTally(s: State, verdicts: seq<bool>)
    requires s.channel != [] && KnownMsg(s.service, s.channel[0]) && Verdicts(s.service, s.channel[0], verdicts)
    ensures var a, b, n := s.service.tally, Served(s.service, s.channel[0], verdicts).tally, |FlushedJobs(s)|;
      b.members == a.members + n && b.committed + b.lost == a.committed + a.lost + n
  {
  }

  // ---- runs ----

  predicate IsRun(c: Config, steps: seq<Step>)
    decreases |steps|, 0
  {
    steps == [] || (var n := |steps| - 1; IsRun(c, steps[..n]) && Enabled(c, Final(c, steps[..n]), steps[n]))
  }

  function Final(c: Config, steps: seq<Step>): State
    requires IsRun(c, steps)
    decreases |steps|, 1
  {
    if steps == [] then Init(c) else Next(c, Final(c, steps[..|steps| - 1]), steps[|steps| - 1])
  }

  /** Everybody has left, nothing is in flight, nothing is pending. */
  predicate Drained(c: Config, s: State) {
    s.channel == [] && s.service.pending == [] && |s.editors| == c.editors
    && forall e :: 0 <= e < c.editors ==> s.editors[e].Left?
  }

  lemma {:induction false} RunInv(c: Config, steps: seq<Step>)
    requires IsRun(c, steps)
    ensures Inv(c, Final(c, steps)) && PositionsOk(Final(c, steps)) && CountsOk(c, Final(c, steps))
  {
    if steps == [] {
      SumConstant(c.editors, (e: nat) => if e < |Init(c).editors| then DrawsOf(c, Init(c).editors[e]) else 0, 0);
      SumConstant(c.editors, (e: nat) => if e < |Init(c).editors| && Init(c).editors[e].Drawn? then 1 else 0, 0);
    } else {
      var n := |steps| - 1;
      var s := Final(c, steps[..n]);
      hide Inv, PositionsOk, CountsOk, Enabled, Next;
      RunInv(c, steps[..n]);
      PositionsStep(c, s, steps[n]);
      CountsStep(c, s, steps[n]);
      if steps[n].Serve? {
        ServeInv(c, s, steps[n]);
      } else {
        EditorStepInv(c, s, steps[n]);
      }
    }
  }

  // ---- no deadlock ----

  /** An open round is held up by an editor that is not blocked on the service: some live editor
      is below the round's position, and it is not waiting for a reply already in the service. */
  lemma OpenRoundHasALaggard(c: Config, s: State) returns (e: nat)
    requires Inv(c, s) && s.service.pending != []
    ensures e < c.editors && s.service.live[e] && s.service.pos[e] < Round(s.service.pending)
    ensures forall i :: 0 <= i < |s.service.pending| ==> s.service.pending[i].editor != e
  {
    var sv, round := s.service, Round(s.service.pending);
    var spoken := (i: nat) => i < |sv.live| && i < |sv.pos| && sv.live[i] && sv.pos[i] >= round;
    var member := (i: nat) => i < |sv.live| && sv.live[i];
    if forall i :: 0 <= i < c.editors && member(i) ==> spoken(i) {
      CountMonotone(c.editors, member, spoken);
      assert false;
    }
    e :| 0 <= e < c.editors && member(e) && !spoken(e);
    forall i | 0 <= i < |sv.pending| ensures sv.pending[i].editor != e {
      assert PendingOk(sv, i);
    }
  }

  /** In every reachable state that is not drained some step can be taken: the service never
      waits for a message that no editor will send. */
  lemma NoDeadlock(c: Config, steps: seq<Step>) returns (step: Step)
    requires IsRun(c, steps) && |c.beats| == c.editors && !Drained(c, Final(c, steps))
    ensures Enabled(c, Final(c, steps), step)
  {
    var s := Final(c, steps);
    RunInv(c, steps);
    if s.channel != [] {
      var sv := Heard(s.service, s.channel[0]);
      return Serve(seq(if Ready(sv) then |sv.pending| else 0, _ => true));
    }
    var e: nat := 0;
    if s.service.pending != [] {
      e := OpenRoundHasALaggard(c, s);
    } else {
      e :| 0 <= e < c.editors && !s.editors[e].Left?;
    }
    assert EditorOk(c, s, e);
    assert Outstanding(s) == s.service.pending;
    var me := s.editors[e];
    match me {
      case Thinking(k) => return if k >= c.actions then Leave(e) else if c.beats[e] then SendBeat(e) else Draw(e);
      case Composing(_) => return Draw(e);
      case Drawn(_, _) => return SendJob(e);
      case Answered(_, _) => return TakeReply(e);
      case Waiting(_, _) =>
        assert false;
      case Left =>
        assert false;
    }
  }

  // ---- every run drains ----

  /** Work an editor still has before it; every step uses some up. */
  function Rank(c: Config, me: Editor): int {
    match me
    case Thinking(k) => 5 * (c.actions - k) + 1
    case Composing(k) => 5 * (c.actions - k)
    case Drawn(k, _) => 5 * (c.actions - k) - 1
    case Waiting(k, _) => 5 * (c.actions - k) - 2
    case Answered(k, _) => 5 * (c.actions - k) - 3
    case Left => 0
  }

  function Ranks(c: Config, s: State): int {
    Sum(|s.editors|, (e: nat) => if e < |s.editors| then Rank(c, s.editors[e]) else 0)
  }

  function Work(c: Config, s: State): int { 2 * Ranks(c, s) + |s.channel| }

  lemma WorkDecreases(c: Config, s: State, step: Step)
    requires Inv(c, s) && Enabled(c, s, step)
    ensures Work(c, Next(c, s, step)) < Work(c, s)
  {
    hide Ready, FlushedJobs, Outstanding;
    var t := Next(c, s, step);
    var r: nat -> int := (e: nat) => if e < |s.editors| then Rank(c, s.editors[e]) else 0;
    var r': nat -> int := (e: nat) => if e < |t.editors| then Rank(c, t.editors[e]) else 0;
    if step.Serve? {
      SumMonotone(c.editors, r', r);
    } else {
      assert EditorOk(c, s, step.e);
      SumChanged(c.editors, r, r', step.e);
    }
  }

  lemma WorkNonnegative(c: Config, s: State)
    requires Inv(c, s)
    ensures Work(c, s) >= 0
  {
    var r: nat -> int := (e: nat) => if e < |s.editors| then Rank(c, s.editors[e]) else 0;
    var z: nat -> int := (_: nat) => 0;
    forall e | 0 <= e < c.editors ensures z(e) <= r(e) {
      assert EditorOk(c, s, e);
    }
    SumMonotone(c.editors, z, r);
    SumConstant(c.editors, z, 0);
  }

  lemma {:induction false} RunsUseWork(c: Config, steps: seq<Step>)
    requires IsRun(c, steps)
    ensures Work(c, Final(c, steps)) + |steps| <= Work(c, Init(c))
  {
    if steps != [] {
      var n := |steps| - 1;
      hide Work;
      RunsUseWork(c, steps[..n]);
      RunInv(c, steps[..n]);
      WorkDecreases(c, Final(c, steps[..n]), steps[n]);
    }
  }

  /** No run is longer than this, whoever is slow and however the messages interleave. */
  lemma RunsBounded(c: Config, steps: seq<Step>)
    requires IsRun(c, steps)
    ensures |steps| <= 2 * (c.editors * (5 * c.actions + 1))
  {
    RunsUseWork(c, steps);
    RunInv(c, steps);
    WorkNonnegative(c, Final(c, steps));
    var s := Init(c);
    SumConstant(c.editors, (e: nat) => if e < |s.editors| then Rank(c, s.editors[e]) else 0, 5 * c.actions + 1);
  }

  /** A run that cannot be extended has drained: every editor's every submission has been answered
      exactly once, and the tally adds up. */
  lemma StuckRunsAreDrained(c: Config, steps: seq<Step>)
    requires IsRun(c, steps) && |c.beats| == c.editors
    requires forall step :: !Enabled(c, Final(c, steps), step)
    ensures var s := Final(c, steps);
      && Drained(c, s)
      && |s.answered| == c.editors * c.actions
      && (forall i :: 0 <= i < |s.answered| ==> 1 <= s.answered[i].position <= c.editors * c.actions)
      && (forall i, j :: 0 <= i < j < |s.answered| ==> s.answered[i].position != s.answered[j].position)
      && s.service.tally.committed + s.service.tally.lost == s.service.tally.members == c.editors * c.actions
  {
    var s := Final(c, steps);
    if !Drained(c, s) {
      var step := NoDeadlock(c, steps);
      assert false;
    }
    RunInv(c, steps);
    SumConstant(c.editors, (e: nat) => if e < |s.editors| then DrawsOf(c, s.editors[e]) else 0, c.actions);
    SumConstant(c.editors, (e: nat) => if e < |s.editors| && s.editors[e].Drawn? then 1 else 0, 0);
  }
}
