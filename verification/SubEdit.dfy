/**
 * Sub-edits: a splice decided against an old value is carried forward through the
 * splices that committed before it, or found to collide with one of them.
 */
module SubEdit {
  import opened Options

  datatype Splice = Splice(at: nat, remove: nat, insert: string)

  datatype Clash = RemovedSpansOverlap | InsertedInsideMyRemoval | MyPositionWasRemoved

  datatype Rebased = Ok(splice: Splice) | Err(clash: Clash)

  function End(s: Splice): nat {
    s.at + s.remove
  }

  function Rebase(me: Splice, earlier: Splice): Rebased {
    var a, r, b, s := me.at, me.remove, earlier.at, earlier.remove;
    if r > 0 && s > 0 && a < End(earlier) && b < End(me) then Err(RemovedSpansOverlap)
    else if r > 0 && s == 0 && a < b < End(me) then Err(InsertedInsideMyRemoval)
    else if r == 0 && s > 0 && b < a < End(earlier) then Err(MyPositionWasRemoved)
    else if End(earlier) <= a then Ok(me.(at := a + |earlier.insert| - s))
    else Ok(me)
  }

  /** Through a whole history, oldest first. */
  function RebaseThrough(me: Splice, history: seq<Splice>): Rebased
    decreases |history|
  {
    if history == [] then Ok(me)
    else
      match Rebase(me, history[0])
      case Err(c) => Err(c)
      case Ok(next) => RebaseThrough(next, history[1..])
  }

  /** The loop over the history. */
  method CarryForward(me: Splice, history: seq<Splice>) returns (r: Rebased)
    ensures r == RebaseThrough(me, history)
  {
    var cur := me;
    for i := 0 to |history|
      invariant RebaseThrough(me, history) == RebaseThrough(cur, history[i..])
    {
      assert history[i..][0] == history[i] && history[i..][1..] == history[i + 1..];
      var next := Rebase(cur, history[i]);
      if next.Err? {
        return next;
      }
      cur := next.splice;
    }
    return Ok(cur);
  }

  function Min(a: nat, b: nat): nat {
    if a < b then a else b
  }

  /** Out-of-range offsets clamp. */
  function Apply(s: Splice, buf: string): string {
    var at := Min(s.at, |buf|);
    var end := Min(at + s.remove, |buf|);
    buf[..at] + s.insert + buf[end..]
  }

  predicate Fits(s: Splice, buf: string) {
    End(s) <= |buf|
  }

  function ApplyAll(history: seq<Splice>, buf: string): string
    decreases |history|
  {
    if history == [] then buf else ApplyAll(history[1..], Apply(history[0], buf))
  }

  predicate FitsAll(history: seq<Splice>, buf: string)
    decreases |history|
  {
    history != [] ==> Fits(history[0], buf) && FitsAll(history[1..], Apply(history[0], buf))
  }

  // ---- where a byte of the old value is now -------------------------------

  /** The new position of the byte at `p`, unless the splice removed it. */
  function Moved(s: Splice, p: nat): Option<nat> {
    if p < s.at then Some(p) else if p < End(s) then None else Some(p - s.remove + |s.insert|)
  }

  function MovedThrough(history: seq<Splice>, p: nat): Option<nat>
    decreases |history|
  {
    if history == [] then Some(p)
    else match Moved(history[0], p)
      case None => None
      case Some(q) => MovedThrough(history[1..], q)
  }

  /** Bytes that survive are found where they are said to have moved. */
  lemma {:induction false} MovedBytes(history: seq<Splice>, buf: string, p: nat)
    requires FitsAll(history, buf) && p < |buf|
    ensures match MovedThrough(history, p)
            case None => true
            case Some(q) => q < |ApplyAll(history, buf)| && ApplyAll(history, buf)[q] == buf[p]
    decreases |history|
  {
    if history != [] && Moved(history[0], p).Some? {
      MovedBytes(history[1..], Apply(history[0], buf), Moved(history[0], p).value);
    }
  }

  /** Byte `p`, now at `q`, is to the rebased splice what it was to the splice: before, in or after. */
  predicate SamePlace(me: Splice, r: Splice, p: nat, q: Option<nat>) {
    && (p < me.at && q.Some? ==> q.value < r.at)
    && (me.at <= p < End(me) ==> q == Some(r.at + p - me.at))
    && (p >= End(me) && q.Some? ==> q.value >= End(r))
  }

  lemma RebaseKeepsPlace(me: Splice, earlier: Splice, p: nat)
    requires Rebase(me, earlier).Ok?
    ensures var r := Rebase(me, earlier).splice;
            r.remove == me.remove && r.insert == me.insert && SamePlace(me, r, p, Moved(earlier, p))
  {
  }

  /**
   * Rebasing through any history keeps the splice on the bytes its author chose, all of
   * which survived, and between the same neighbours.
   */
  lemma {:induction false} RebaseThroughKeepsPlace(me: Splice, history: seq<Splice>, p: nat)
    requires RebaseThrough(me, history).Ok?
    ensures var r := RebaseThrough(me, history).splice;
            r.remove == me.remove && r.insert == me.insert && SamePlace(me, r, p, MovedThrough(history, p))
    decreases |history|
  {
    if history != [] {
      var next := Rebase(me, history[0]).splice;
      RebaseKeepsPlace(me, history[0], p);
      var q := Moved(history[0], p);
      RebaseThroughKeepsPlace(next, history[1..], if q.Some? then q.value else 0);
    }
  }

  /** It removes, from the value as it is now, exactly the text it would have removed from the old one. */
  lemma RebaseThroughKeepsText(me: Splice, history: seq<Splice>, buf: string)
    requires Fits(me, buf) && FitsAll(history, buf) && RebaseThrough(me, history).Ok?
    ensures var r, now := RebaseThrough(me, history).splice, ApplyAll(history, buf);
            Fits(r, now) && now[r.at..End(r)] == buf[me.at..End(me)]
  {
    hide RebaseThrough, MovedThrough, ApplyAll, FitsAll;
    var r, now := RebaseThrough(me, history).splice, ApplyAll(history, buf);
    RebaseThroughKeepsPlace(me, history, 0);
    RebasedFits(me, history, buf);
    forall i | 0 <= i < r.remove
      ensures now[r.at..End(r)][i] == buf[me.at..End(me)][i]
    {
      MovedBytes(history, buf, me.at + i);
      RebaseThroughKeepsPlace(me, history, me.at + i);
    }
  }

  lemma {:induction false} RebasedFits(me: Splice, history: seq<Splice>, buf: string)
    requires Fits(me, buf) && FitsAll(history, buf) && RebaseThrough(me, history).Ok?
    ensures Fits(RebaseThrough(me, history).splice, ApplyAll(history, buf))
    decreases |history|
  {
    if history != [] {
      RebasedFits(Rebase(me, history[0]).splice, history[1..], Apply(history[0], buf));
    }
  }

  // ---- one splice more ----------------------------------------------------

  lemma {:induction false} MovedSnoc(history: seq<Splice>, c: Splice, p: nat)
    ensures MovedThrough(history + [c], p) ==
            match MovedThrough(history, p) case None => None case Some(q) => Moved(c, q)
    decreases |history|
  {
    var all := history + [c];
    if history == [] {
      assert all[1..] == [];
    } else {
      assert all[0] == history[0] && all[1..] == history[1..] + [c];
      match Moved(history[0], p)
      case None =>
      case Some(q) => MovedSnoc(history[1..], c, q);
    }
  }

  lemma {:induction false} RebaseAppend(me: Splice, a: seq<Splice>, b: seq<Splice>)
    ensures RebaseThrough(me, a + b) ==
            match RebaseThrough(me, a) case Err(e) => Err(e) case Ok(r) => RebaseThrough(r, b)
    decreases |a|
  {
    var all := a + b;
    if a == [] {
      assert all == b;
    } else {
      assert all[0] == a[0] && all[1..] == a[1..] + b;
      match Rebase(me, a[0])
      case Err(e) =>
      case Ok(r) => RebaseAppend(r, a[1..], b);
    }
  }

  lemma RebaseSnoc(me: Splice, history: seq<Splice>, c: Splice)
    ensures RebaseThrough(me, history + [c]) ==
            match RebaseThrough(me, history) case Err(e) => Err(e) case Ok(r) => Rebase(r, c)
  {
    hide Rebase;
    RebaseAppend(me, history, [c]);
    assert [c][1..] == [];
    if RebaseThrough(me, history).Ok? {
      var r := RebaseThrough(me, history).splice;
      if Rebase(r, c).Ok? {
        assert RebaseThrough(Rebase(r, c).splice, []) == Rebase(r, c);
      }
    }
  }

  lemma {:induction false} ApplyAppend(a: seq<Splice>, b: seq<Splice>, buf: string)
    ensures ApplyAll(a + b, buf) == ApplyAll(b, ApplyAll(a, buf))
    ensures FitsAll(a + b, buf) <==> FitsAll(a, buf) && FitsAll(b, ApplyAll(a, buf))
    decreases |a|
  {
    var all := a + b;
    if a == [] {
      assert all == b;
    } else {
      assert all[0] == a[0] && all[1..] == a[1..] + b;
      ApplyAppend(a[1..], b, Apply(a[0], buf));
    }
  }

  // ---- what a clash is ----------------------------------------------------

  predicate Removes(s: Splice, p: nat) {
    s.at <= p < End(s)
  }

  /** A byte both remove, or an insertion strictly inside the other's removal. */
  ghost predicate Entangled(a: Splice, b: Splice) {
    || (exists p :: Removes(a, p) && Removes(b, p))
    || (a.remove == 0 && b.at < a.at < End(b))
    || (b.remove == 0 && a.at < b.at < End(a))
  }

  lemma ClashIffEntangled(me: Splice, earlier: Splice)
    ensures Rebase(me, earlier).Err? <==> Entangled(me, earlier)
    ensures Rebase(me, earlier) == Err(RemovedSpansOverlap) <==> exists p :: Removes(me, p) && Removes(earlier, p)
    ensures Rebase(me, earlier) == Err(InsertedInsideMyRemoval) <==> earlier.remove == 0 && me.at < earlier.at < End(me)
    ensures Rebase(me, earlier) == Err(MyPositionWasRemoved) <==> me.remove == 0 && earlier.at < me.at < End(earlier)
    ensures Rebase(me, earlier).Err? <==> Rebase(earlier, me).Err?
  {
    var p := if me.at < earlier.at then earlier.at else me.at;
    if Rebase(me, earlier) == Err(RemovedSpansOverlap) {
      assert Removes(me, p) && Removes(earlier, p);
    }
  }

  /** Both commit orders give the same text, unless two insertions race for one spot. */
  lemma CommuteIff(a: Splice, b: Splice, buf: string)
    requires Fits(a, buf) && Fits(b, buf) && Rebase(a, b).Ok? && Rebase(b, a).Ok?
    ensures Apply(Rebase(b, a).splice, Apply(a, buf)) == Apply(Rebase(a, b).splice, Apply(b, buf)) <==>
            (a.remove == 0 && b.remove == 0 && a.at == b.at ==> a.insert + b.insert == b.insert + a.insert)
  {
    if a.remove == 0 && b.remove == 0 && a.at == b.at {
      SameSpot(a, b, buf);
    } else if End(a) <= b.at {
      Apart(a, b, buf);
    } else {
      Apart(b, a, buf);
    }
  }

  /** Two insertions at one spot: the text tells which committed first. */
  lemma SameSpotTellsTheOrder(at: nat, buf: string)
    requires at <= |buf|
    ensures var a, b := Splice(at, 0, "a"), Splice(at, 0, "b");
            && Rebase(a, b).Ok? && Rebase(b, a).Ok?
            && Apply(Rebase(b, a).splice, Apply(a, buf)) != Apply(Rebase(a, b).splice, Apply(b, buf))
  {
    var a, b := Splice(at, 0, "a"), Splice(at, 0, "b");
    assert ("a" + "b")[0] == 'a' && ("b" + "a")[0] == 'b';
    CommuteIff(a, b, buf);
  }

  lemma Apart(a: Splice, b: Splice, buf: string)
    requires Fits(a, buf) && Fits(b, buf) && End(a) <= b.at
    requires !(a.remove == 0 && b.remove == 0 && a.at == b.at)
    requires Rebase(a, b).Ok? && Rebase(b, a).Ok?
    ensures Apply(Rebase(b, a).splice, Apply(a, buf)) == Apply(Rebase(a, b).splice, Apply(b, buf))
  {
    hide Apply;
    var p, x, m, y, q := buf[..a.at], buf[a.at..End(a)], buf[End(a)..b.at], buf[b.at..End(b)], buf[End(b)..];
    var b2 := Rebase(b, a).splice;
    assert b2 == b.(at := |p + a.insert + m|) && Rebase(a, b).splice == a;
    Parts(p, x, m, y, q, a.insert, b.insert);
    assert buf == p + x + m + y + q;
  }

  lemma ApplyParts(pre: string, gone: string, post: string, insert: string)
    ensures Apply(Splice(|pre|, |gone|, insert), pre + gone + post) == pre + insert + post
  {
  }

  /** Two parts of a text replaced in either order. */
  lemma Parts(p: string, x: string, m: string, y: string, q: string, i: string, j: string)
    ensures var buf, first, second := p + x + m + y + q, Splice(|p|, |x|, i), Splice(|p + x + m|, |y|, j);
            Apply(second.(at := |p + i + m|), Apply(first, buf)) == Apply(first, Apply(second, buf))
  {
    hide Apply;
    var buf := p + x + m + y + q;
    assert buf == p + x + (m + y + q) && buf == (p + x + m) + y + q;
    ApplyParts(p, x, m + y + q, i);
    ApplyParts(p + x + m, y, q, j);
    assert p + i + (m + y + q) == (p + i + m) + y + q;
    ApplyParts(p + i + m, y, q, j);
    assert (p + x + m) + j + q == p + x + (m + j + q);
    ApplyParts(p, x, m + j + q, i);
    assert (p + i + m) + j + q == p + i + (m + j + q);
  }

  lemma SameSpot(a: Splice, b: Splice, buf: string)
    requires Fits(a, buf) && a.remove == 0 && b.remove == 0 && a.at == b.at
    ensures Apply(Rebase(b, a).splice, Apply(a, buf)) == buf[..a.at] + (a.insert + b.insert) + buf[a.at..]
    ensures Apply(Rebase(a, b).splice, Apply(b, buf)) == buf[..a.at] + (b.insert + a.insert) + buf[a.at..]
    ensures buf[..a.at] + (a.insert + b.insert) + buf[a.at..] == buf[..a.at] + (b.insert + a.insert) + buf[a.at..] ==>
              a.insert + b.insert == b.insert + a.insert
  {
    InsertTwice(a, b, buf);
    InsertTwice(b, a, buf);
    var n := a.at;
    var x, y := buf[..n] + (a.insert + b.insert) + buf[n..], buf[..n] + (b.insert + a.insert) + buf[n..];
    assert x[n..n + |a.insert + b.insert|] == a.insert + b.insert;
    assert y[n..n + |b.insert + a.insert|] == b.insert + a.insert;
  }

  lemma InsertTwice(first: Splice, second: Splice, buf: string)
    requires Fits(first, buf) && first.remove == 0 && second.remove == 0 && first.at == second.at
    ensures Apply(Rebase(second, first).splice, Apply(first, buf)) ==
            buf[..first.at] + (first.insert + second.insert) + buf[first.at..]
  {
    var r, mid := Rebase(second, first).splice, Apply(first, buf);
    assert mid[..r.at] == buf[..first.at] + first.insert;
    assert mid[End(r)..] == buf[first.at..];
  }

  // ---- the engine's walk over the ring ------------------------------------

  /** What the ring keeps of a splice: the range it replaced and its change of length. */
  datatype Written = Written(lo: nat, hi: nat, delta: int)

  datatype Outcome = At(at: nat) | Collision | Unanswerable

  function Record(s: Splice): Written {
    Written(s.at, End(s), |s.insert| - s.remove)
  }

  /** One step of the walk: overlap is a collision, a range starting at or before me moves me. */
  function RingStep(at: nat, len: nat, w: Written): Outcome {
    if at < w.hi && w.lo < at + len then Collision
    else if w.lo > at then At(at)
    else if at + w.delta < 0 then Unanswerable
    else At(at + w.delta)
  }

  function OutcomeOf(r: Rebased): Outcome {
    match r case Ok(s) => At(s.at) case Err(_) => Collision
  }

  /** An insertion exactly at the start of text that was removed and not replaced by as much. */
  predicate AtRemovedStart(at: nat, len: nat, e: Splice) {
    len == 0 && at == e.at && e.remove > 0 && |e.insert| != e.remove
  }

  /** The walk and the splice algebra agree except on that insertion. */
  lemma RingAgreesIff(me: Splice, earlier: Splice)
    ensures RingStep(me.at, me.remove, Record(earlier)) == OutcomeOf(Rebase(me, earlier)) <==>
            !AtRemovedStart(me.at, me.remove, earlier)
  {
  }

  /** An insertion at 10, where the four bytes from 10 on were deleted, is left by the algebra and moved to 6 by the walk. */
  lemma RingMovesTheInsertion(insert: string)
    ensures var me, earlier := Splice(10, 0, insert), Splice(10, 4, "");
            && Rebase(me, earlier) == Ok(me)
            && RingStep(me.at, me.remove, Record(earlier)) == At(6)
  {
  }
}
