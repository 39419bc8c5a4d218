/**
 * What a heartbeat promises. A beat publishes the value of the shared counter; its
 * sender's own next edit may still draw that very value, but none below it, and an
 * editor counted as having spoken for a round never adds an edit to that round.
 */
module BeatPromises {
  import opened CounterQuorum
  import opened QuorumRuns

  // ---- the next edit after a beat -----------------------------------------

  function DrawCount(steps: seq<Step>): nat {
    if steps == [] then 0 else DrawCount(steps[..|steps| - 1]) + (if steps[|steps| - 1].Draw? then 1 else 0)
  }

  lemma {:induction false} RunPrefix(c: Config, steps: seq<Step>, n: nat)
    requires IsRun(c, steps) && n <= |steps|
    ensures IsRun(c, steps[..n])
    decreases |steps|
  {
    if n == |steps| {
      assert steps[..n] == steps;
    } else {
      var m := |steps| - 1;
      assert steps[..m][..n] == steps[..n];
      RunPrefix(c, steps[..m], n);
    }
  }

  lemma RunStep(c: Config, steps: seq<Step>, i: nat)
    requires IsRun(c, steps) && i < |steps|
    ensures IsRun(c, steps[..i]) && IsRun(c, steps[..i + 1]) && Enabled(c, Final(c, steps[..i]), steps[i])
    ensures Final(c, steps[..i + 1]) == Next(c, Final(c, steps[..i]), steps[i])
  {
    hide Next, Enabled;
    RunPrefix(c, steps, i);
    RunPrefix(c, steps, i + 1);
    assert steps[..i + 1][..i] == steps[..i];
  }

  lemma BeatEffect(c: Config, s: State, e: nat)
    requires Enabled(c, s, SendBeat(e))
    ensures var t := Next(c, s, SendBeat(e));
            t.channel != [] && t.channel[|t.channel| - 1] == Beat(e, s.clock) && t.clock == s.clock
  {
  }

  lemma DrawEffect(c: Config, s: State, e: nat)
    requires Enabled(c, s, Draw(e))
    ensures var t := Next(c, s, Draw(e)); e < |t.editors| && t.editors[e].Drawn? && t.editors[e].q == s.clock
  {
  }

  /** The counter moves by one for every draw and for nothing else. */
  lemma {:induction false} ClockCountsDraws(c: Config, steps: seq<Step>)
    requires IsRun(c, steps)
    ensures Final(c, steps).clock == 1 + DrawCount(steps)
  {
    if steps != [] {
      ClockCountsDraws(c, steps[..|steps| - 1]);
    }
  }

  lemma {:induction false} DrawsBetween(steps: seq<Step>, n: nat)
    requires n <= |steps|
    ensures DrawCount(steps) >= DrawCount(steps[..n])
    ensures DrawCount(steps) > DrawCount(steps[..n]) <==> exists i :: n <= i < |steps| && steps[i].Draw?
  {
    if n == |steps| {
      assert steps[..n] == steps;
    } else {
      var m := |steps| - 1;
      assert steps[..m][..n] == steps[..n];
      DrawsBetween(steps[..m], n);
      if exists i :: n <= i < m && steps[i].Draw? {
        var i :| n <= i < m && steps[i].Draw?;
        assert steps[..m][i].Draw?;
      }
      if exists i :: n <= i < m && steps[..m][i].Draw? {
        var i :| n <= i < m && steps[..m][i].Draw?;
        assert steps[i].Draw?;
      }
    }
  }

  /**
   * Over every run: when editor `e` beats at step `b` and next draws at step `d`, the beat
   * carries the counter as it was, the position drawn is not below it, and it is above it
   * exactly when another editor drew in between.
   */
  lemma BeatBoundsNextEdit(c: Config, steps: seq<Step>, b: nat, d: nat, e: nat)
    requires IsRun(c, steps) && b < d < |steps| && steps[b] == SendBeat(e) && steps[d] == Draw(e)
    requires forall i :: b < i < d ==> steps[i] != Draw(e)
    ensures IsRun(c, steps[..b]) && IsRun(c, steps[..b + 1]) && IsRun(c, steps[..d + 1])
    ensures var p := Final(c, steps[..b]).clock;
            var sent, drawn := Final(c, steps[..b + 1]), Final(c, steps[..d + 1]);
            && sent.channel != [] && sent.channel[|sent.channel| - 1] == Beat(e, p)
            && e < |drawn.editors| && drawn.editors[e].Drawn? && drawn.editors[e].q >= p
            && (drawn.editors[e].q > p <==> exists i :: b < i < d && steps[i].Draw? && steps[i].e != e)
  {
    hide IsRun, Final;
    RunStep(c, steps, b);
    RunStep(c, steps, d);
    assert steps[..d][..b + 1] == steps[..b + 1];
    ClockCountsDraws(c, steps[..b]);
    ClockCountsDraws(c, steps[..b + 1]);
    ClockCountsDraws(c, steps[..d]);
    DrawsBetween(steps[..d], b + 1);
    var p, q := Final(c, steps[..b]).clock, Final(c, steps[..d]).clock;
    hide Next;
    BeatEffect(c, Final(c, steps[..b]), e);
    DrawEffect(c, Final(c, steps[..d]), e);
    if q > p {
      var i :| b + 1 <= i < d && steps[..d][i].Draw?;
      assert steps[i].Draw? && steps[i] != Draw(e);
    }
    if exists i :: b < i < d && steps[i].Draw? && steps[i].e != e {
      var i :| b < i < d && steps[i].Draw? && steps[i].e != e;
      assert steps[..d][i].Draw?;
    }
  }

  /** So the words "nothing at or before it" are not true of the sender's own next edit. */
  lemma BeatMayTieWithOwnEdit() returns (steps: seq<Step>)
    ensures IsRun(Config(1, 1, [true]), steps)
    ensures var s := Final(Config(1, 1, [true]), steps);
      exists p :: Beat(0, p) in s.channel && s.editors == [Drawn(0, p)]
  {
    var c := Config(1, 1, [true]);
    assert IsRun(c, []);
    assert Init(c).editors == [Thinking(0)];
    var one := [SendBeat(0)];
    assert one[..0] == [] && IsRun(c, one) && Final(c, one) == Next(c, Init(c), SendBeat(0));
    steps := [SendBeat(0), Draw(0)];
    assert steps[..1] == one && IsRun(c, steps);
    assert Final(c, steps) == Next(c, Final(c, one), Draw(0));
    assert Beat(0, 1) in Final(c, steps).channel;
  }

  // ---- nothing published is ahead of its editor ---------------------------

  /** The position an editor holds, or the one it would draw now. */
  function Ahead(s: State, e: nat): nat
    requires e < |s.editors|
  {
    if Holding(s.editors[e]) then s.editors[e].q else s.clock
  }

  ghost predicate BeatOk(s: State, i: nat)
    requires i < |s.channel|
  {
    s.channel[i].Beat? ==> s.channel[i].editor < |s.editors| && s.channel[i].position <= Ahead(s, s.channel[i].editor)
  }

  ghost predicate PosOk(s: State, e: nat)
    requires e < |s.editors|
  {
    e < |s.service.pos| ==> s.service.pos[e] <= Ahead(s, e)
  }

  /** Every position published, heard or in flight, is at most the one its editor holds or will draw. */
  ghost predicate PublishedOk(s: State) {
    && (forall e :: 0 <= e < |s.editors| ==> PosOk(s, e))
    && (forall i :: 0 <= i < |s.channel| ==> BeatOk(s, i))
  }

  lemma AheadGrows(c: Config, s: State, step: Step, e: nat)
    requires Inv(c, s) && Enabled(c, s, step) && e < |s.editors|
    ensures e < |Next(c, s, step).editors| && Ahead(s, e) <= Ahead(Next(c, s, step), e)
  {
    assert EditorOk(c, s, e);
  }

  lemma PublishedEditor(c: Config, s: State, step: Step)
    requires Inv(c, s) && !step.Serve? && Enabled(c, s, step) && PublishedOk(s)
    ensures PublishedOk(Next(c, s, step))
  {
    hide Inv, Ahead;
    var t := Next(c, s, step);
    forall e | 0 <= e < |t.editors|
      ensures PosOk(t, e)
    {
      assert PosOk(s, e);
      AheadGrows(c, s, step, e);
    }
    forall i | 0 <= i < |t.channel|
      ensures BeatOk(t, i)
    {
      if i < |s.channel| {
        assert BeatOk(s, i) && t.channel[i] == s.channel[i];
        if s.channel[i].Beat? {
          AheadGrows(c, s, step, s.channel[i].editor);
        }
      } else if step.SendBeat? {
        BeatIsAhead(c, s, step);
      }
    }
  }

  lemma BeatIsAhead(c: Config, s: State, step: Step)
    requires step.SendBeat? && Enabled(c, s, step)
    ensures Ahead(Next(c, s, step), step.e) == s.clock
  {
  }

  lemma PublishedServe(c: Config, s: State, step: Step)
    requires Inv(c, s) && step.Serve? && Enabled(c, s, step) && PublishedOk(s)
    ensures PublishedOk(Next(c, s, step))
  {
    hide Ready, Ahead;
    var t, msg := Next(c, s, step), s.channel[0];
    forall e | 0 <= e < |t.editors|
      ensures PosOk(t, e)
    {
      assert PosOk(s, e);
      AheadGrows(c, s, step, e);
      HeardIsAhead(c, s, e);
    }
    forall i | 0 <= i < |t.channel|
      ensures BeatOk(t, i)
    {
      assert BeatOk(s, i + 1) && t.channel[i] == s.channel[i + 1];
      if t.channel[i].Beat? {
        AheadGrows(c, s, step, t.channel[i].editor);
      }
    }
  }

  /** Hearing the next message does not put anyone past what they hold or would draw. */
  lemma HeardIsAhead(c: Config, s: State, e: nat)
    requires Inv(c, s) && PublishedOk(s) && s.channel != [] && e < |s.editors|
    ensures KnownMsg(s.service, s.channel[0]) && Heard(s.service, s.channel[0]).pos[e] <= Ahead(s, e)
  {
    hide Ready;
    assert PosOk(s, e) && BeatOk(s, 0);
    if s.channel[0].Submit? {
      var k := |s.service.pending|;
      assert Outstanding(s)[k] == s.channel[0].job;
      assert JobOk(s, k);
    }
  }

  lemma {:induction false} RunPublished(c: Config, steps: seq<Step>)
    requires IsRun(c, steps)
    ensures PublishedOk(Final(c, steps))
  {
    if steps != [] {
      var n := |steps| - 1;
      RunPublished(c, steps[..n]);
      RunInv(c, steps[..n]);
      hide Inv, PublishedOk, Enabled, Next;
      if steps[n].Serve? {
        PublishedServe(c, Final(c, steps[..n]), steps[n]);
      } else {
        PublishedEditor(c, Final(c, steps[..n]), steps[n]);
      }
    }
  }

  // ---- having spoken for a round ------------------------------------------

  /** The editor counts as having spoken for the open round, and has no edit in it. */
  predicate SpokeFor(s: State, e: nat) {
    && s.service.pending != [] && e < |s.service.live| && e < |s.service.pos| && s.service.live[e]
    && s.service.pos[e] >= Round(s.service.pending)
    && forall i :: 0 <= i < |s.service.pending| ==> s.service.pending[i].editor != e
  }

  lemma RoundIsOthers(c: Config, s: State, e: nat)
    requires Inv(c, s) && PositionsOk(s) && PublishedOk(s) && SpokeFor(s, e)
    ensures e < |s.editors| && Round(s.service.pending) < Ahead(s, e) && Round(s.service.pending) < s.clock
  {
    hide Ready;
    var r := Round(s.service.pending);
    var i :| 0 <= i < |s.service.pending| && r == s.service.pending[i].position;
    assert Outstanding(s)[i] == s.service.pending[i];
    assert JobOk(s, i);
    var f := s.service.pending[i].editor;
    assert EditorOk(c, s, f) && PosOk(s, e);
    assert Holding(s.editors[f]) && s.editors[f].q == r && f != e;
    if Holding(s.editors[e]) {
      assert s.editors[e].q != r;
    }
  }

  lemma AboveStep(c: Config, s: State, step: Step, e: nat, round: nat)
    requires Enabled(c, s, step) && e < |s.editors| && round < s.clock
    requires Holding(s.editors[e]) ==> s.editors[e].q > round
    ensures var t := Next(c, s, step);
            e < |t.editors| && round < t.clock && (Holding(t.editors[e]) ==> t.editors[e].q > round)
  {
    hide FlushedJobs, Served;
  }

  /**
   * In every reachable state, an editor that counts as having spoken for the open round and
   * has no edit in it holds, and in every continuation of the run will ever hold, only
   * positions above the round: the round it helped to close is closed for it.
   */
  lemma {:induction false} SpokenStaysAboveRound(c: Config, steps: seq<Step>, n: nat, e: nat)
    requires IsRun(c, steps) && n <= |steps| && IsRun(c, steps[..n]) && SpokeFor(Final(c, steps[..n]), e)
    ensures var round := Round(Final(c, steps[..n]).service.pending);
            var t := Final(c, steps);
            e < |t.editors| && round < t.clock && (Holding(t.editors[e]) ==> t.editors[e].q > round)
    decreases |steps|
  {
    hide Next, Enabled, SpokeFor, Round, Inv;
    if n == |steps| {
      assert steps[..n] == steps;
      RunInv(c, steps);
      RunPublished(c, steps);
      RoundIsOthers(c, Final(c, steps), e);
    } else {
      var m := |steps| - 1;
      assert steps[..m][..n] == steps[..n];
      SpokenStaysAboveRound(c, steps[..m], n, e);
      AboveStep(c, Final(c, steps[..m]), steps[m], e, Round(Final(c, steps[..n]).service.pending));
    }
  }
}
