/**
 * A commit of several splices of one cell publishes one record: the smallest span around
 * their ranges, each as its splice found the value, and the sum of their changes of length.
 * This says exactly when that record makes a later walk refuse every real collision.
 */
module CommitRecords {
  import opened Options
  import opened SubEdit
  import opened EditBatch
  import opened RecordTruth
  import G = GuardRing

  function Max(a: nat, b: nat): nat { if a < b then b else a }

  /** What the statements of a commit leave in the ring. */
  function Publish(splices: seq<Splice>): (w: Written)
    requires splices != []
    ensures w.lo <= w.hi
    ensures forall i :: 0 <= i < |splices| ==> w.lo <= splices[i].at && End(splices[i]) <= w.hi
  {
    if |splices| == 1 then Record(splices[0])
    else
      var rest := Publish(splices[1..]);
      Written(Min(splices[0].at, rest.lo), Max(End(splices[0]), rest.hi), Delta(splices[0]) + rest.delta)
  }

  /** The edits of a batch as the statements that apply them, each at its shifted offset. */
  function Shifted(edits: seq<Splice>): seq<Splice> {
    if edits == [] then []
    else
      var front, s := edits[..|edits| - 1], edits[|edits| - 1];
      var at := s.at + Shift(front, s.at);
      Shifted(front) + [s.(at := if at < 0 then 0 else at)]
  }

  // ---- the record is the commit's footprint -------------------------------

  /** The touches of a commit, on whatever rows, are those of the splices. */
  predicate Touching(ts: seq<G.Touch>, splices: seq<Splice>) {
    |ts| == |splices| && forall i :: 0 <= i < |ts| ==>
      ts[i].range == Some((splices[i].at, End(splices[i]))) && ts[i].delta == Delta(splices[i])
  }

  lemma {:induction false} PublishIsFootprint(ts: seq<G.Touch>, splices: seq<Splice>)
    requires Touching(ts, splices) && splices != []
    ensures var fp, w := G.FootprintOf(ts), Publish(splices); fp.range == Some((w.lo, w.hi)) && fp.delta == w.delta
    decreases |ts|
  {
    if |ts| > 1 {
      PublishIsFootprint(ts[1..], splices[1..]);
    } else {
      assert ts[1..] == [] && G.RangeOf(ts) == ts[0].range;
      assert G.DeltaOf(ts) == ts[0].delta + G.DeltaOf([]);
    }
  }

  // ---- where a byte is after the batch ------------------------------------

  /** The last statement of the batch, at the end of what comes before it. */
  lemma LastShifted(base: string, front: seq<Splice>, s: Splice)
    requires AllApart(base, front) && Accepts(base, front, s)
    ensures Shifted(front + [s]) == Shifted(front) + [s.(at := |Lead(base, front, s.at)|)]
    ensures |Lead(base, front, s.at)| == s.at + Shift(front, s.at)
  {
    hide Between, Typed, AllApart, Clear, Lead;
    var edits := front + [s];
    assert edits[..|edits| - 1] == front;
    ClearIsOutside(front, s);
    LeadLength(base, front, s.at);
  }

  lemma {:induction false} ShiftInside(front: seq<Splice>, s: Splice, p: nat)
    requires Clear(front, s) && s.at <= p < End(s)
    ensures Shift(front, p) == Shift(front, s.at)
  {
    if front != [] {
      assert !Overlaps(front[|front| - 1], s);
      ShiftInside(front[..|front| - 1], s, p);
    }
  }

  lemma KeptIsOutside(edits: seq<Splice>, p: nat)
    requires !Gone(edits, p)
    ensures Outside(edits, p)
  {
  }

  /** A byte kept before a position is one byte of what comes before it. */
  lemma LeadGrows(base: string, front: seq<Splice>, p: nat, x: nat)
    requires p < x && p < |base| && !Gone(front, p)
    ensures |Lead(base, front, p)| < |Lead(base, front, x)|
  {
    hide Typed, Replacing, Gone;
    Around(base, front, p, x);
  }

  /** What an edit that ends at or before a position removes comes before it too. */
  lemma LeadPast(base: string, front: seq<Splice>, s: Splice, x: nat)
    requires Accepts(base, front, s) && End(s) <= x
    ensures |Lead(base, front, s.at)| + s.remove <= |Lead(base, front, x)|
  {
    hide Between, Typed;
    if s.at < x {
      OneMore(base, front, s, x);
    }
  }

  /** A byte of the old value is where its own shift says, unless the batch removed it. */
  lemma {:induction false} ShiftedMoves(base: string, edits: seq<Splice>, p: nat)
    requires AllApart(base, edits) && p < |base|
    ensures MovedThrough(Shifted(edits), p) == if Gone(edits, p) then None else Some(p + Shift(edits, p))
    decreases |edits|
  {
    if edits != [] {
      var front, s := edits[..|edits| - 1], edits[|edits| - 1];
      assert edits == front + [s];
      ShiftedMoves(base, front, p);
      LastShifted(base, front, s);
      var c := s.(at := |Lead(base, front, s.at)|);
      MovedSnoc(Shifted(front), c, p);
      Snoc(front, s, p);
      if !Gone(front, p) {
        MovedLast(base, front, s, p);
      }
    }
  }

  /** The order of a kept byte and the last edit is the order of their images. */
  lemma MovedLast(base: string, front: seq<Splice>, s: Splice, p: nat)
    requires AllApart(base, front) && Accepts(base, front, s) && p < |base| && !Gone(front, p)
    ensures var q, at := p + Shift(front, p), |Lead(base, front, s.at)|;
            && 0 <= q
            && (p < s.at ==> q < at)
            && (Removes(s, p) ==> q == at + p - s.at)
            && (p >= End(s) && p >= s.at ==> q >= at + s.remove)
  {
    hide Between, Typed, Gone;
    KeptIsOutside(front, p);
    LeadLength(base, front, p);
    ClearIsOutside(front, s);
    LeadLength(base, front, s.at);
    if p < s.at {
      LeadGrows(base, front, p, s.at);
    } else if Removes(s, p) {
      ShiftInside(front, s, p);
    } else {
      LeadPast(base, front, s, p);
    }
  }

  // ---- a pending edit against the batch -----------------------------------

  lemma ClashIsOverlap(me: Splice, earlier: Splice)
    ensures Rebase(me, earlier).Err? <==> Overlaps(earlier, me)
  {
  }

  /** Where the carried edit and the last statement overlap, the edits did, and the other way round. */
  lemma CarriedOverlap(base: string, front: seq<Splice>, s: Splice, me: Splice, r: Splice)
    requires AllApart(base, front) && Accepts(base, front, s) && Fits(me, base) && Clear(front, me)
    requires RebaseThrough(me, Shifted(front)) == Ok(r)
    ensures Overlaps(s.(at := |Lead(base, front, s.at)|), r) <==> Overlaps(s, me)
  {
    hide RebaseThrough, AllApart, Accepts, Clear, Lead, MovedThrough, Shifted;
    RebaseThroughKeepsPlace(me, Shifted(front), 0);
    if me.remove > 0 {
      if s.remove > 0 {
        if Overlaps(s, me) {
          Image(base, front, s, me, r, Max(s.at, me.at), true);
        } else if End(me) <= s.at {
          Image(base, front, s, me, r, End(me) - 1, true);
        } else {
          Image(base, front, s, me, r, me.at, true);
        }
      } else if Overlaps(s, me) {
        Image(base, front, s, me, r, s.at - 1, true);
        Image(base, front, s, me, r, s.at, true);
      } else if s.at <= me.at {
        Image(base, front, s, me, r, me.at, true);
      } else {
        Image(base, front, s, me, r, End(me) - 1, true);
      }
    } else if s.remove > 0 {
      Image(base, front, s, me, r, s.at, false);
      Image(base, front, s, me, r, End(s) - 1, false);
    }
  }

  /** The image of one byte, of the pending edit or of the last one, seen from both. */
  lemma Image(base: string, front: seq<Splice>, s: Splice, me: Splice, r: Splice, p: nat, mine: bool)
    requires AllApart(base, front) && Accepts(base, front, s) && Fits(me, base) && Clear(front, me)
    requires RebaseThrough(me, Shifted(front)) == Ok(r) && (if mine then Removes(me, p) else Removes(s, p))
    ensures var q, at := p + Shift(front, p), |Lead(base, front, s.at)|;
            && 0 <= q && r.remove == me.remove && SamePlace(me, r, p, Some(q))
            && (p < s.at ==> q < at)
            && (Removes(s, p) ==> q == at + p - s.at)
            && (p >= End(s) && p >= s.at ==> q >= at + s.remove)
  {
    hide RebaseThrough, AllApart, Lead, MovedThrough, Shifted, SamePlace;
    NotGone(front, if mine then me else s, p);
    ShiftedMoves(base, front, p);
    MovedLast(base, front, s, p);
    RebaseThroughKeepsPlace(me, Shifted(front), p);
  }

  lemma NotGone(front: seq<Splice>, s: Splice, p: nat)
    requires Clear(front, s) && Removes(s, p)
    ensures !Gone(front, p)
  {
    InsideIsUntouched(front, s, p);
  }

  /** A pending edit collides with the batch exactly when it overlaps one of its edits in the old value. */
  lemma {:induction false} BatchCollides(base: string, edits: seq<Splice>, me: Splice)
    requires AllApart(base, edits) && Fits(me, base)
    ensures RebaseThrough(me, Shifted(edits)).Err? <==> !Clear(edits, me)
    decreases |edits|
  {
    if edits != [] {
      var front, s := edits[..|edits| - 1], edits[|edits| - 1];
      assert edits == front + [s];
      assert Clear(edits, me) <==> Clear(front, me) && !Overlaps(s, me);
      BatchCollides(base, front, me);
      LastShifted(base, front, s);
      var c := s.(at := |Lead(base, front, s.at)|);
      RebaseSnoc(me, Shifted(front), c);
      if Clear(front, me) {
        var r := RebaseThrough(me, Shifted(front)).splice;
        CarriedOverlap(base, front, s, me, r);
        ClashIsOverlap(r, c);
      }
    }
  }

  // ---- when the record is enough ------------------------------------------

  /**
   * The record shields an edit of the commit: a pending edit that overlaps it in the old
   * value overlaps the published span, or is pushed in front of the value and refused.
   */
  predicate Shields(w: Written, base: string, o: Splice) {
    if o.remove > 0 then w.lo <= o.at && (End(o) <= w.hi || End(o) - 1 + w.delta < 0)
    else o.at == 0 || o.at >= |base| || w.lo <= o.at <= w.hi || (w.lo < o.at && o.at - 1 + w.delta < 0)
  }

  /** Every pending edit that really collides with the row's edits is refused. */
  ghost predicate RefusesEveryCollision(base: string, edits: seq<Splice>, w: Written) {
    forall me: Splice :: Fits(me, base) && RebaseThrough(me, Shifted(edits)).Err? ==> !RingStep(me.at, me.remove, w).At?
  }

  lemma ShieldedIsRefused(base: string, w: Written, o: Splice, me: Splice)
    requires Fits(me, base) && Overlaps(o, me) && Shields(w, base, o) && w.lo <= w.hi
    ensures !RingStep(me.at, me.remove, w).At?
  {
  }

  /** An edit that is not shielded has a collision of one or two bytes that slips through. */
  lemma UnshieldedSlips(base: string, w: Written, o: Splice) returns (me: Splice)
    requires Fits(o, base) && !Shields(w, base, o) && w.lo <= w.hi
    ensures Fits(me, base) && me.remove > 0 && Overlaps(o, me) && RingStep(me.at, me.remove, w).At?
  {
    if o.remove == 0 {
      me := Splice(o.at - 1, 2, "");
    } else if o.at < w.lo {
      me := Splice(o.at, 1, "");
    } else {
      me := Splice(End(o) - 1, 1, "");
    }
  }

  lemma ShiftedSize(edits: seq<Splice>)
    ensures |Shifted(edits)| == |edits|
  {
  }

  /**
   * For every commit of edits of a row that are apart in the value it found, and whatever else it
   * wrote: the walk refuses every real collision exactly when the published span shields each
   * of those edits.
   */
  lemma RecordRefusesIff(base: string, edits: seq<Splice>, w: Written)
    requires AllApart(base, edits) && w.lo <= w.hi
    ensures RefusesEveryCollision(base, edits, w) <==> AllShielded(w, base, edits)
  {
    hide AllApart, Shifted, RebaseThrough, Shields, RingStep;
    if AllShielded(w, base, edits) {
      forall me: Splice | Fits(me, base) && RebaseThrough(me, Shifted(edits)).Err?
        ensures !RingStep(me.at, me.remove, w).At?
      {
        BatchCollides(base, edits, me);
        var i :| 0 <= i < |edits| && Overlaps(edits[i], me);
        ShieldedIsRefused(base, w, edits[i], me);
      }
    } else {
      var me := CollisionSlips(base, edits, w);
    }
  }

  predicate AllShielded(w: Written, base: string, edits: seq<Splice>) {
    forall i :: 0 <= i < |edits| ==> Shields(w, base, edits[i])
  }

  lemma CollisionSlips(base: string, edits: seq<Splice>, w: Written) returns (me: Splice)
    requires AllApart(base, edits) && w.lo <= w.hi && !AllShielded(w, base, edits)
    ensures Fits(me, base) && me.remove > 0 && RebaseThrough(me, Shifted(edits)).Err? && RingStep(me.at, me.remove, w).At?
  {
    hide AllApart, Shifted, RebaseThrough, Shields, RingStep;
    var i :| 0 <= i < |edits| && !Shields(w, base, edits[i]);
    ApartFits(base, edits, i);
    me := UnshieldedSlips(base, w, edits[i]);
    BatchCollides(base, edits, me);
    assert Overlaps(edits[i], me);
  }

  /** Every byte outside the span that the row's edits keep is moved by their shift alone. */
  predicate MovesByShift(w: Written, base: string, edits: seq<Splice>) {
    forall p: nat :: p < |base| && !Gone(edits, p) && Said(w, p).Some? ==> Said(w, p).value == p + Shift(edits, p)
  }

  /**
   * For such a commit the record tells the truth about the row exactly when it shields each edit
   * of the row and moves what they keep by their shift alone.
   */
  lemma ApartTellsIff(base: string, edits: seq<Splice>, w: Written)
    requires AllApart(base, edits) && w.lo <= w.hi
    ensures Tells(w, Shifted(edits), |base|) <==> AllShielded(w, base, edits) && MovesByShift(w, base, edits)
  {
    hide AllApart, Shifted, RebaseThrough, AllShielded, Tells, Right, Gone, Shift, MovedThrough;
    TellsIff(w, Shifted(edits), |base|);
    if Tells(w, Shifted(edits), |base|) {
      if !AllShielded(w, base, edits) {
        var me := CollisionSlips(base, edits, w);
        assert Right(w, Shifted(edits), me);
        SlipIsWrong(w, Shifted(edits), me);
      }
      forall p: nat | p < |base| && !Gone(edits, p) && Said(w, p).Some?
        ensures Said(w, p).value == p + Shift(edits, p)
      {
        ShiftedMoves(base, edits, p);
        ByteTold(w, Shifted(edits), |base|, p);
      }
    }
    if AllShielded(w, base, edits) && MovesByShift(w, base, edits) {
      forall me: Splice | me.remove > 0 && End(me) <= |base|
        ensures Right(w, Shifted(edits), me)
      {
        ShieldedIsRight(base, edits, w, me);
      }
    }
  }

  lemma SlipIsWrong(w: Written, own: seq<Splice>, me: Splice)
    requires RebaseThrough(me, own).Err? && RingStep(me.at, me.remove, w).At?
    ensures !Right(w, own, me)
  {
  }

  lemma ByteTold(w: Written, own: seq<Splice>, n: nat, p: nat)
    requires Tells(w, own, n) && p < n && Said(w, p).Some?
    ensures MovedThrough(own, p) == Said(w, p)
  {
    hide MovedThrough;
  }

  lemma ShieldedIsRight(base: string, edits: seq<Splice>, w: Written, me: Splice)
    requires AllApart(base, edits) && w.lo <= w.hi && me.remove > 0 && End(me) <= |base|
    requires AllShielded(w, base, edits) && MovesByShift(w, base, edits)
    ensures Right(w, Shifted(edits), me)
  {
    hide AllApart, Shifted, RebaseThrough, Shields, Shift, MovedThrough, Gone;
    var out := RingStep(me.at, me.remove, w);
    if out.At? {
      BatchCollides(base, edits, me);
      forall i | 0 <= i < |edits|
        ensures !Overlaps(edits[i], me)
      {
        if Overlaps(edits[i], me) {
          ShieldedIsRefused(base, w, edits[i], me);
          assert false;
        }
      }
      assert Clear(edits, me);
      NotGone(edits, me, me.at);
      ShiftedMoves(base, edits, me.at);
      RebaseThroughKeepsPlace(me, Shifted(edits), me.at);
      assert Said(w, me.at) == Some(out.at);
    }
  }

  lemma {:induction false} ApartFits(base: string, edits: seq<Splice>, i: nat)
    requires AllApart(base, edits) && i < |edits|
    ensures Fits(edits[i], base)
  {
    if i < |edits| - 1 {
      ApartFits(base, edits[..|edits| - 1], i);
    }
  }

  lemma ExampleApart(base: string)
    requires |base| >= 8
    ensures AllApart(base, [Splice(0, 4, ""), Splice(6, 2, "ZZ")])
  {
    var a, b := Splice(0, 4, ""), Splice(6, 2, "ZZ");
    assert [a][..0] == [] && AllApart(base, []) && AllApart(base, [a]);
    assert [a, b][..1] == [a];
  }

  lemma ShiftedSnoc(front: seq<Splice>, s: Splice)
    requires s.at + Shift(front, s.at) >= 0
    ensures Shifted(front + [s]) == Shifted(front) + [s.(at := s.at + Shift(front, s.at))]
  {
    assert (front + [s])[..|front|] == front;
  }

  lemma ExampleShifted()
    ensures Shifted([Splice(0, 4, ""), Splice(6, 2, "ZZ")]) == [Splice(0, 4, ""), Splice(2, 2, "ZZ")]
  {
    var a, b := Splice(0, 4, ""), Splice(6, 2, "ZZ");
    ShiftedSnoc([], a);
    assert [] + [a] == [a] && Shifted([]) == [];
    assert [a][..0] == [] && Shift([a], 6) == Shift([], 6) - 4;
    hide Shifted;
    ShiftedSnoc([a], b);
    assert [a] + [b] == [a, b];
  }

  /** Four bytes deleted in front, two replaced behind: a pending deletion of one of the two slips through. */
  lemma RecordMissesACollision(base: string)
    requires |base| >= 8
    ensures var edits, me := [Splice(0, 4, ""), Splice(6, 2, "ZZ")], Splice(7, 1, "");
            && AllApart(base, edits) && Shifted(edits) != []
            && Publish(Shifted(edits)) == Written(0, 4, -4)
            && RebaseThrough(me, Shifted(edits)).Err? && RingStep(me.at, me.remove, Publish(Shifted(edits))) == At(3)
  {
    hide AllApart, Shifted;
    ExampleApart(base);
    ExampleShifted();
    var me, cs := Splice(7, 1, ""), [Splice(0, 4, ""), Splice(2, 2, "ZZ")];
    assert cs[1..] == [cs[1]];
    assert Rebase(me, cs[0]) == Ok(Splice(3, 1, ""));
    assert RebaseThrough(Splice(3, 1, ""), [cs[1]]).Err?;
  }

  // ---- where the walk then puts an edit -----------------------------------

  /** Every edit of the commit lies inside the published span as it was in the old value. */
  predicate Inside(w: Written, edits: seq<Splice>) {
    forall i :: 0 <= i < |edits| ==> w.lo <= edits[i].at && End(edits[i]) <= w.hi
  }

  lemma {:induction false} CarriedBehind(base: string, edits: seq<Splice>, me: Splice)
    requires AllApart(base, edits) && Fits(me, base) && forall i :: 0 <= i < |edits| ==> End(edits[i]) <= me.at
    ensures 0 <= me.at + Shift(edits, me.at)
    ensures RebaseThrough(me, Shifted(edits)) == Ok(me.(at := me.at + Shift(edits, me.at)))
    decreases |edits|
  {
    if edits != [] {
      var front, s := edits[..|edits| - 1], edits[|edits| - 1];
      assert edits == front + [s] && End(s) <= me.at;
      assert forall i :: 0 <= i < |front| ==> front[i] == edits[i];
      CarriedBehind(base, front, me);
      LastShifted(base, front, s);
      LeadPast(base, front, s, me.at);
      LeadLength(base, front, me.at);
      RebaseSnoc(me, Shifted(front), s.(at := |Lead(base, front, s.at)|));
    }
  }

  lemma {:induction false} CarriedInFront(me: Splice, history: seq<Splice>)
    requires forall i :: 0 <= i < |history| ==> End(me) <= history[i].at && me.at < End(history[i])
    ensures RebaseThrough(me, history) == Ok(me)
    decreases |history|
  {
    if history != [] {
      assert Rebase(me, history[0]) == Ok(me);
      CarriedInFront(me, history[1..]);
    }
  }

  lemma {:induction false} WholeShift(edits: seq<Splice>, m: nat)
    requires edits != [] && forall i :: 0 <= i < |edits| ==> End(edits[i]) <= m
    ensures Shift(edits, m) == Publish(Shifted(edits)).delta
  {
    ShiftedSize(edits);
    DeltasKept(edits);
    PublishDelta(Shifted(edits));
    AllCount(edits, m);
  }

  function Deltas(splices: seq<Splice>): int {
    if splices == [] then 0 else Deltas(splices[..|splices| - 1]) + Delta(splices[|splices| - 1])
  }

  lemma {:induction false} AllCount(edits: seq<Splice>, m: nat)
    requires forall i :: 0 <= i < |edits| ==> End(edits[i]) <= m
    ensures Shift(edits, m) == Deltas(edits)
  {
    if edits != [] {
      AllCount(edits[..|edits| - 1], m);
    }
  }

  lemma {:induction false} DeltasKept(edits: seq<Splice>)
    ensures Deltas(Shifted(edits)) == Deltas(edits)
  {
    if edits != [] {
      var all := Shifted(edits);
      assert all[..|all| - 1] == Shifted(edits[..|edits| - 1]);
      DeltasKept(edits[..|edits| - 1]);
    }
  }

  lemma {:induction false} PublishDelta(splices: seq<Splice>)
    requires splices != []
    ensures Publish(splices).delta == Deltas(splices)
  {
    if |splices| > 1 {
      PublishDelta(splices[1..]);
      DeltasHead(splices);
    } else {
      assert Deltas(splices) == Deltas([]) + Delta(splices[0]);
    }
  }

  lemma {:induction false} DeltasHead(splices: seq<Splice>)
    requires splices != []
    ensures Deltas(splices) == Delta(splices[0]) + Deltas(splices[1..])
  {
    var n := |splices| - 1;
    if n == 0 {
      assert splices[1..] == [] && splices[..0] == [];
    } else {
      DeltasHead(splices[..n]);
      assert splices[..n][1..] == splices[1..][..n - 1];
    }
  }

  /**
   * Where the span holds every edit as it was, the offset the walk finds is the rebased one,
   * except for an insertion exactly at the start of the span.
   */
  lemma InsideRecordPlaces(base: string, edits: seq<Splice>, me: Splice)
    requires AllApart(base, edits) && edits != [] && Fits(me, base)
    ensures Shifted(edits) != []
    ensures var w := Publish(Shifted(edits));
            var out := RingStep(me.at, me.remove, w);
            Inside(w, edits) && out.At? && !(me.remove == 0 && me.at == w.lo) ==>
              RebaseThrough(me, Shifted(edits)) == Ok(me.(at := out.at))
  {
    ShiftedSize(edits);
    var cs := Shifted(edits);
    var w := Publish(cs);
    var out := RingStep(me.at, me.remove, w);
    if Inside(w, edits) && out.At? && !(me.remove == 0 && me.at == w.lo) {
      if me.at >= w.hi {
        CarriedBehind(base, edits, me);
        WholeShift(edits, me.at);
      } else {
        CarriedInFront(me, cs);
      }
    }
  }
}
