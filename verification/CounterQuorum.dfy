/** Flushing pending edits on a counter quorum: no clock, only messages. */
module CounterQuorum {
  import opened Counting

  datatype Job = Job(editor: nat, position: nat)

  datatype Msg = Submit(job: Job) | Beat(editor: nat, position: nat) | Gone(editor: nat)

  datatype Tally = Tally(onQuorum: nat, members: nat, committed: nat, lost: nat, wiped: nat)

  datatype Service = Service(pending: seq<Job>, pos: seq<nat>, live: seq<bool>, tally: Tally)

  // ---- the service ----

  function QuorumOf(active: nat): nat { if active <= 2 then 1 else active / 2 + 1 }

  lemma {:induction false} SubsetSize(a: set<nat>, b: set<nat>)
    requires a <= b
    ensures |a| <= |b|
  {
    if a != {} {
      var x :| x in a;
      SubsetSize(a - {x}, b - {x});
    }
  }

  ghost predicate Group(g: set<nat>, all: set<nat>, size: nat) { g <= all && |g| >= size }

  /** Any two groups of this size share an editor. */
  ghost predicate Meets(all: set<nat>, size: nat) {
    forall a, b :: Group(a, all, size) && Group(b, all, size) ==> !(a !! b)
  }

  lemma {:induction false} DisjointGroups(all: set<nat>, size: nat) returns (a: set<nat>, b: set<nat>)
    requires 2 * size <= |all|
    ensures Group(a, all, size) && Group(b, all, size) && a !! b && |a| == |b| == size
    decreases size
  {
    if size == 0 {
      a, b := {}, {};
    } else {
      var x :| x in all;
      assert |all - {x}| == |all| - 1;
      var y :| y in all - {x};
      assert |all - {x, y}| == |all| - 2;
      a, b := DisjointGroups(all - {x, y}, size - 1);
      a, b := a + {x}, b + {y};
    }
  }

  lemma MeetsIff(all: set<nat>, size: nat)
    ensures Meets(all, size) <==> 2 * size > |all|
  {
    if 2 * size <= |all| {
      var a, b := DisjointGroups(all, size);
    } else {
      forall a, b | Group(a, all, size) && Group(b, all, size)
        ensures !(a !! b)
      {
        SubsetSize(a + b, all);
        assert a !! b ==> |a + b| == |a| + |b|;
      }
    }
  }

  /** A quorum can be met, and with three editors or more it is the least number of which any two groups
      share an editor. Two quorums of one editor each miss each other exactly when there are two editors. */
  lemma QuorumsIntersect(all: set<nat>)
    ensures Meets(all, QuorumOf(|all|)) <==> |all| != 2
    ensures |all| >= 3 ==> forall size: nat :: Meets(all, size) <==> size >= QuorumOf(|all|)
    ensures all != {} ==> 1 <= QuorumOf(|all|) <= |all|
  {
    forall size: nat
      ensures Meets(all, size) <==> 2 * size > |all|
    {
      MeetsIff(all, size);
    }
    hide Meets;
  }

  function Max(a: nat, b: nat): nat { if a < b then b else a }

  /** The oldest pending position. */
  function Round(pending: seq<Job>): (r: nat)
    requires pending != []
    ensures forall i :: 0 <= i < |pending| ==> r <= pending[i].position
    ensures exists i :: 0 <= i < |pending| && r == pending[i].position
  {
    if |pending| == 1 then pending[0].position
    else var rest := Round(pending[1..]);
         if pending[0].position < rest then pending[0].position else rest
  }

  function Members(sv: Service): nat { Count(|sv.live|, (i: nat) => i < |sv.live| && sv.live[i]) }

  function Spoken(sv: Service, round: nat): nat {
    Count(|sv.live|, (i: nat) => i < |sv.live| && i < |sv.pos| && sv.live[i] && sv.pos[i] >= round)
  }

  predicate Known(sv: Service, e: nat) { e < |sv.pos| == |sv.live| }

  predicate KnownMsg(sv: Service, msg: Msg) {
    Known(sv, match msg case Submit(j) => j.editor case Beat(e, _) => e case Gone(e) => e)
  }

  function Heard(sv: Service, msg: Msg): Service
    requires KnownMsg(sv, msg)
  {
    match msg
    case Submit(j) => sv.(pos := sv.pos[j.editor := Max(sv.pos[j.editor], j.position)], pending := sv.pending + [j])
    case Beat(e, p) => sv.(pos := sv.pos[e := Max(sv.pos[e], p)])
    case Gone(e) => sv.(live := sv.live[e := false])
  }

  /** A round closes once a majority of the live editors has reached its position. */
  predicate Ready(sv: Service) {
    sv.pending != [] && !(Spoken(sv, Round(sv.pending)) < QuorumOf(Members(sv)) && Members(sv) > 0)
  }

  function CountTrue(v: seq<bool>): (n: nat)
    ensures n <= |v|
  {
    if v == [] then 0 else CountTrue(v[..|v| - 1]) + if v[|v| - 1] then 1 else 0
  }

  function Flushed(sv: Service, verdicts: seq<bool>): Service
    requires |verdicts| == |sv.pending|
  {
    var t, n := sv.tally, CountTrue(verdicts);
    sv.(pending := [],
        tally := Tally(t.onQuorum + 1, t.members + |verdicts|, t.committed + n, t.lost + |verdicts| - n,
                       t.wiped + if n == 0 then 1 else 0))
  }

  /** One verdict per flushed submission, none when the round stays open. */
  predicate Verdicts(sv: Service, msg: Msg, verdicts: seq<bool>)
    requires KnownMsg(sv, msg)
  {
    |verdicts| == if Ready(Heard(sv, msg)) then |Heard(sv, msg).pending| else 0
  }

  function Served(sv: Service, msg: Msg, verdicts: seq<bool>): Service
    requires KnownMsg(sv, msg) && Verdicts(sv, msg, verdicts)
  {
    if Ready(Heard(sv, msg)) then Flushed(Heard(sv, msg), verdicts) else Heard(sv, msg)
  }

  /** The message loop's state. `submit` answers a batch with one verdict per submission. */
  class QuorumService {
    var pending: seq<Job>
    var pos: array<nat>
    var live: array<bool>
    var onQuorum: nat
    var members: nat
    var committed: nat
    var lost: nat
    var wiped: nat

    ghost function State(): Service
      reads this, pos, live
    {
      Service(pending, pos[..], live[..], Tally(onQuorum, members, committed, lost, wiped))
    }

    constructor (editors: nat)
      ensures State() == Started(editors)
      ensures fresh(pos) && fresh(live)
    {
      pos := new nat[editors](_ => 0);
      live := new bool[editors](_ => true);
      pending := [];
      onQuorum, members, committed, lost, wiped := 0, 0, 0, 0, 0;
    }

    method OldestPending() returns (round: nat)
      requires pending != []
      ensures round == Round(pending)
    {
      round := pending[|pending| - 1].position;
      assert pending[|pending| - 1..] == [pending[|pending| - 1]];
      for i := |pending| - 1 downto 0
        invariant round == Round(pending[i..])
      {
        assert pending[i..][1..] == pending[i + 1..];
        if pending[i].position < round {
          round := pending[i].position;
        }
      }
      assert pending[0..] == pending;
    }

    method CountSpoken(round: nat) returns (n: nat, spoken: nat)
      requires pos.Length == live.Length
      ensures n == Members(State()) && spoken == Spoken(State(), round)
    {
      n, spoken := 0, 0;
      ghost var sv := State();
      var m := live.Length;
      ghost var isMember := (i: nat) => i < |sv.live| && sv.live[i];
      ghost var hasSpoken := (i: nat) => i < |sv.live| && i < |sv.pos| && sv.live[i] && sv.pos[i] >= round;
      for i := 0 to m
        invariant State() == sv
        invariant n == Count(i, isMember) && spoken == Count(i, hasSpoken)
      {
        if live[i] {
          n := n + 1;
          if pos[i] >= round {
            spoken := spoken + 1;
          }
        }
      }
    }

    method Hear(msg: Msg)
      requires KnownMsg(State(), msg) && pos as object != live
      modifies this`pending, pos, live
      ensures pos == old(pos) && live == old(live) && State() == Heard(old(State()), msg)
    {
      match msg {
        case Submit(j) =>
          pos[j.editor] := Max(pos[j.editor], j.position);
          pending := pending + [j];
        case Beat(e, p) =>
          pos[e] := Max(pos[e], p);
        case Gone(e) =>
          live[e] := false;
      }
    }

    /** Submit the whole pending batch and answer every member. */
    method Flush(submit: seq<Job> -> seq<bool>) returns (replies: seq<(Job, bool)>)
      requires |submit(pending)| == |pending|
      modifies this`pending, this`onQuorum, this`members, this`committed, this`lost, this`wiped
      ensures State() == Flushed(old(State()), submit(old(pending)))
      ensures |replies| == |old(pending)|
      ensures forall i :: 0 <= i < |replies| ==> replies[i] == (old(pending)[i], submit(old(pending))[i])
    {
      onQuorum := onQuorum + 1;
      var subs := pending;
      var verdicts := submit(subs);
      members := members + |subs|;
      var ok := 0;
      replies := [];
      for i := 0 to |subs|
        invariant |replies| == i && forall k :: 0 <= k < i ==> replies[k] == (subs[k], verdicts[k])
        invariant ok == CountTrue(verdicts[..i])
      {
        assert verdicts[..i + 1][..i] == verdicts[..i];
        if verdicts[i] {
          ok := ok + 1;
        }
        replies := replies + [(subs[i], verdicts[i])];
      }
      assert verdicts[..|subs|] == verdicts;
      committed := committed + ok;
      lost := lost + (|subs| - ok);
      wiped := wiped + if ok == 0 then 1 else 0;
      pending := [];
    }

    /** Handle one message; `replies` are the answers sent back when the round closed. */
    method Receive(msg: Msg, submit: seq<Job> -> seq<bool>) returns (replies: seq<(Job, bool)>)
      requires KnownMsg(State(), msg) && pos as object != live
      requires forall js :: |submit(js)| == |js|
      modifies this, pos, live
      ensures var sv := old(State());
        var flushed := if Ready(Heard(sv, msg)) then Heard(sv, msg).pending else [];
        && Verdicts(sv, msg, submit(flushed))
        && State() == Served(sv, msg, submit(flushed))
        && |replies| == |flushed|
        && forall i :: 0 <= i < |replies| ==> replies[i] == (flushed[i], submit(flushed)[i])
    {
      replies := [];
      assert |submit([])| == 0;
      Hear(msg);
      if pending == [] {
        return;
      }
      var round := OldestPending();
      var n, spoken := CountSpoken(round);
      if spoken < QuorumOf(n) && n > 0 {
        return;
      }
      replies := Flush(submit);
    }
  }

  function Started(editors: nat): Service {
    Service([], seq(editors, _ => 0), seq(editors, _ => true), Tally(0, 0, 0, 0, 0))
  }
}
