/**
 * The walk over the records of a history, beside the statements that made the history: where
 * it carries a pending edit, where the edit belongs, and exactly when the two agree.
 */
module RecordWalk {
  import opened Options
  import opened SubEdit
  import opened RecordTruth
  import opened EditBatch

  /** What a commit says about a value, `None` if the walk stops there, and what it did to it. */
  datatype Entry = Entry(record: Option<Written>, own: seq<Splice>)

  /** A record that concerns other values only. */
  const ELSEWHERE := Written(0, 0, 0)

  predicate Ordered(e: Entry) {
    e.record.Some? ==> e.record.value.lo <= e.record.value.hi
  }

  predicate AllOrdered(es: seq<Entry>) {
    forall t :: 0 <= t < |es| ==> Ordered(es[t])
  }

  /** All statements of the history, oldest first. */
  function Owns(es: seq<Entry>): seq<Splice> {
    if es == [] then [] else Owns(es[..|es| - 1]) + es[|es| - 1].own
  }

  function EntryStep(e: Entry, at: nat, len: nat): Outcome {
    match e.record case None => Unanswerable case Some(w) => RingStep(at, len, w)
  }

  function EntryWalk(es: seq<Entry>, at: nat, len: nat): Outcome {
    if es == [] then At(at)
    else match EntryWalk(es[..|es| - 1], at, len)
      case At(y) => EntryStep(es[|es| - 1], y, len)
      case other => other
  }

  lemma WalkSnoc(es: seq<Entry>, e: Entry, at: nat, len: nat)
    ensures EntryWalk(es + [e], at, len) == match EntryWalk(es, at, len) case At(y) => EntryStep(e, y, len) case other => other
    ensures Owns(es + [e]) == Owns(es) + e.own
  {
    assert (es + [e])[..|es|] == es;
  }

  lemma OneStep(e: Entry, at: nat, len: nat)
    ensures EntryWalk([e], at, len) == EntryStep(e, at, len) && Owns([e]) == e.own
  {
    WalkSnoc([], e, at, len);
    assert [] + [e] == [e] && [] + e.own == e.own;
  }

  // ---- every pending edit of a history ------------------------------------

  /** The value after the first `t` commits. */
  function Version(base: string, es: seq<Entry>, t: nat): string
    requires t <= |es|
  {
    ApplyAll(Owns(es[..t]), base)
  }

  predicate EntryTells(e: Entry, n: nat, bare: bool) {
    e.record.Some? ==> if bare then TellsPoints(e.record.value, e.own, n) else Tells(e.record.value, e.own, n)
  }

  /** If the walk finds an offset, it is where the statements carry the edit. */
  predicate WalkIsRight(es: seq<Entry>, me: Splice) {
    var out := EntryWalk(es, me.at, me.remove);
    out.At? ==> RebaseThrough(me, Owns(es)) == Ok(me.(at := out.at))
  }

  /** Decided on one version and walked to a later one, an edit is never misled. `bare` edits remove nothing. */
  ghost predicate NeverMisleads(base: string, es: seq<Entry>, bare: bool) {
    forall i: nat, v: nat, me: Splice ::
      i <= v <= |es| && (me.remove == 0 <==> bare) && Fits(me, Version(base, es, i)) ==> WalkIsRight(es[i..v], me)
  }

  lemma StepIsRightIff(e: Entry, n: nat, bare: bool)
    requires Ordered(e)
    ensures (forall me: Splice :: (me.remove == 0 <==> bare) && End(me) <= n ==> WalkIsRight([e], me)) <==>
            EntryTells(e, n, bare)
  {
    hide Tells, TellsPoints, RebaseThrough, RingStep;
    forall me: Splice
      ensures EntryWalk([e], me.at, me.remove) == EntryStep(e, me.at, me.remove) && Owns([e]) == e.own
    {
      OneStep(e, me.at, me.remove);
    }
    if e.record.Some? {
      var w := e.record.value;
      assert forall me: Splice :: WalkIsRight([e], me) <==> Right(w, e.own, me);
      hide Right, WalkIsRight;
      if bare {
        TellsPointsIff(w, e.own, n);
      } else {
        TellsIff(w, e.own, n);
      }
    }
  }

  /** One commit more. */
  lemma WalkGoesOn(es: seq<Entry>, e: Entry, me: Splice, base: string)
    requires WalkIsRight(es, me) && Fits(me, base) && FitsAll(Owns(es), base)
    requires forall r: Splice :: (r.remove == 0 <==> me.remove == 0) && Fits(r, ApplyAll(Owns(es), base)) ==> WalkIsRight([e], r)
    ensures WalkIsRight(es + [e], me)
  {
    hide RebaseThrough, FitsAll, EntryStep;
    var out := EntryWalk(es, me.at, me.remove);
    WalkSnoc(es, e, me.at, me.remove);
    RebaseAppend(me, Owns(es), e.own);
    if out.At? {
      var r := me.(at := out.at);
      RebasedFits(me, Owns(es), base);
      assert WalkIsRight([e], r);
      OneStep(e, r.at, r.remove);
    }
  }

  lemma {:induction false} OwnsApart(es: seq<Entry>, i: nat)
    requires i <= |es|
    ensures Owns(es) == Owns(es[..i]) + Owns(es[i..])
    decreases |es| - i
  {
    if i < |es| {
      var m := |es| - 1;
      OwnsApart(es[..m], i);
      assert es[..m][..i] == es[..i] && es[..m][i..] == es[i..m];
      assert es[i..][..m - i] == es[i..m];
    } else {
      assert es[..i] == es && es[i..] == [];
    }
  }

  lemma VersionApart(base: string, es: seq<Entry>, i: nat, v: nat)
    requires i <= v <= |es| && FitsAll(Owns(es), base)
    ensures FitsAll(Owns(es[i..v]), Version(base, es, i))
    ensures Version(base, es, v) == ApplyAll(Owns(es[i..v]), Version(base, es, i))
  {
    hide FitsAll, ApplyAll, Owns;
    OwnsApart(es, v);
    ApplyAppend(Owns(es[..v]), Owns(es[v..]), base);
    OwnsApart(es[..v], i);
    assert es[..v][..i] == es[..i] && es[..v][i..] == es[i..v];
    ApplyAppend(Owns(es[..i]), Owns(es[i..v]), base);
  }

  /** Where every record of a history tells the truth, a walk over any part of it does. */
  lemma {:induction false} ToldHistory(base: string, es: seq<Entry>, bare: bool, i: nat, v: nat, me: Splice)
    requires FitsAll(Owns(es), base) && AllOrdered(es)
    requires forall t: nat :: t < |es| ==> EntryTells(es[t], |Version(base, es, t)|, bare)
    requires i <= v <= |es| && (me.remove == 0 <==> bare) && Fits(me, Version(base, es, i))
    ensures WalkIsRight(es[i..v], me)
    decreases v
  {
    hide EntryTells, FitsAll, Version, Owns;
    if v == i {
      NothingWalked(me);
      assert es[i..v] == [];
    } else {
      ToldHistory(base, es, bare, i, v - 1, me);
      VersionApart(base, es, i, v - 1);
      StepIsRightIff(es[v - 1], |Version(base, es, v - 1)|, bare);
      WalkGoesOn(es[i..v - 1], es[v - 1], me, Version(base, es, i));
      assert es[i..v] == es[i..v - 1] + [es[v - 1]];
    }
  }

  lemma NothingWalked(me: Splice)
    ensures WalkIsRight([], me)
  {
  }

  /**
   * For every history: no pending edit is ever misled, whatever version it was decided on and
   * whatever version it is walked to, exactly when every record tells the truth about the value
   * its commit found.
   */
  lemma NeverMisleadsIff(base: string, es: seq<Entry>, bare: bool)
    requires FitsAll(Owns(es), base) && AllOrdered(es)
    ensures NeverMisleads(base, es, bare) <==>
            forall t: nat :: t < |es| ==> EntryTells(es[t], |Version(base, es, t)|, bare)
  {
    hide EntryTells, FitsAll, Version, WalkIsRight, Owns;
    if forall t: nat :: t < |es| ==> EntryTells(es[t], |Version(base, es, t)|, bare) {
      forall i: nat, v: nat, me: Splice | i <= v <= |es| && (me.remove == 0 <==> bare) && Fits(me, Version(base, es, i))
        ensures WalkIsRight(es[i..v], me)
      {
        ToldHistory(base, es, bare, i, v, me);
      }
    }
    if NeverMisleads(base, es, bare) {
      forall t: nat | t < |es|
        ensures EntryTells(es[t], |Version(base, es, t)|, bare)
      {
        forall me: Splice | (me.remove == 0 <==> bare) && End(me) <= |Version(base, es, t)|
          ensures WalkIsRight([es[t]], me)
        {
          assert es[t..t + 1] == [es[t]];
          assert Fits(me, Version(base, es, t));
        }
        StepIsRightIff(es[t], |Version(base, es, t)|, bare);
      }
    }
  }

  /** Commits of one splice each never mislead an edit that removes something. */
  lemma SinglesNeverMislead(base: string, es: seq<Entry>)
    requires FitsAll(Owns(es), base)
    requires forall t :: 0 <= t < |es| ==> |es[t].own| == 1 && es[t].record == Some(Record(es[t].own[0]))
    ensures NeverMisleads(base, es, false)
  {
    hide Tells, FitsAll, Version, Owns, NeverMisleads;
    forall t: nat | t < |es|
      ensures EntryTells(es[t], |Version(base, es, t)|, false)
    {
      assert es[t].own == [es[t].own[0]];
      SingleTells(es[t].own[0], |Version(base, es, t)|);
    }
    NeverMisleadsIff(base, es, false);
  }

  /** The record tells the truth about a value of any length. */
  ghost predicate TellsAlways(e: Entry, bare: bool) {
    forall n: nat :: EntryTells(e, n, bare)
  }

  /** The same for a value of any length. */
  lemma NeverMisleadsAnywhereIff(es: seq<Entry>, bare: bool)
    requires AllOrdered(es)
    ensures (forall i: nat, v: nat, me: Splice :: i <= v <= |es| && (me.remove == 0 <==> bare) ==> WalkIsRight(es[i..v], me)) <==>
            forall t: nat :: t < |es| ==> TellsAlways(es[t], bare)
  {
    hide EntryTells, WalkIsRight;
    if forall t: nat :: t < |es| ==> TellsAlways(es[t], bare) {
      forall i: nat, v: nat, me: Splice | i <= v <= |es| && (me.remove == 0 <==> bare)
        ensures WalkIsRight(es[i..v], me)
      {
        ToldAnywhere(es, bare, i, v, me);
      }
    }
    if forall i: nat, v: nat, me: Splice :: i <= v <= |es| && (me.remove == 0 <==> bare) ==> WalkIsRight(es[i..v], me) {
      forall t: nat | t < |es|
        ensures TellsAlways(es[t], bare)
      {
        assert es[t..t + 1] == [es[t]];
        assert forall me: Splice :: (me.remove == 0 <==> bare) ==> WalkIsRight(es[t..t + 1], me);
        forall n: nat
          ensures EntryTells(es[t], n, bare)
        {
          StepIsRightIff(es[t], n, bare);
        }
      }
    }
  }

  lemma {:induction false} ToldAnywhere(es: seq<Entry>, bare: bool, i: nat, v: nat, me: Splice)
    requires i <= v <= |es| && AllOrdered(es) && forall t: nat :: i <= t < v ==> TellsAlways(es[t], bare)
    requires (me.remove == 0 <==> bare)
    ensures WalkIsRight(es[i..v], me)
    decreases v
  {
    hide EntryTells, Owns, RebaseThrough;
    if v == i {
      NothingWalked(me);
      assert es[i..v] == [];
    } else {
      ToldAnywhere(es, bare, i, v - 1, me);
      var front, e := es[i..v - 1], es[v - 1];
      assert es[i..v] == front + [e];
      WalkSnoc(front, e, me.at, me.remove);
      RebaseAppend(me, Owns(front), e.own);
      var out := EntryWalk(front, me.at, me.remove);
      if out.At? {
        var r := me.(at := out.at);
        assert TellsAlways(e, bare);
        StepIsRightIff(e, End(r), bare);
        assert WalkIsRight([e], r);
        OneStep(e, r.at, r.remove);
      }
    }
  }

  // ---- an edit that starts somewhere else ---------------------------------

  /** How far a record moves an offset it lets pass. */
  function RecordMove(w: Written, at: nat): int {
    if w.lo <= at then w.delta else 0
  }

  /** How far the statements move an edit they do not collide with. */
  function RowMove(own: seq<Splice>, at: nat): int
    decreases |own|
  {
    if own == [] then 0
    else if End(own[0]) <= at then Delta(own[0]) + RowMove(own[1..], at + Delta(own[0]))
    else RowMove(own[1..], at)
  }

  lemma {:induction false} RowMoves(me: Splice, own: seq<Splice>)
    requires RebaseThrough(me, own).Ok?
    ensures RebaseThrough(me, own).splice.at == me.at + RowMove(own, me.at)
    decreases |own|
  {
    if own != [] {
      RowMoves(Rebase(me, own[0]).splice, own[1..]);
    }
  }

  /** By how much more the record of one commit moves the walk at `y` than the commit moved the edit at `at`. */
  function Stray(e: Entry, y: nat, at: nat): int {
    (match e.record case None => 0 case Some(w) => RecordMove(w, y)) - RowMove(e.own, at)
  }

  /** The strays of the whole walk, commit by commit. */
  function Strays(es: seq<Entry>, start: nat, me: Splice): int {
    if es == [] then 0
    else
      var front, e := es[..|es| - 1], es[|es| - 1];
      match (EntryWalk(front, start, me.remove), RebaseThrough(me, Owns(front)))
      case (At(y), Ok(r)) => Strays(front, start, me) + Stray(e, y, r.at)
      case _ => 0
  }

  lemma {:induction false} StraysAddUp(es: seq<Entry>, start: nat, me: Splice)
    requires EntryWalk(es, start, me.remove).At? && RebaseThrough(me, Owns(es)).Ok?
    ensures EntryWalk(es, start, me.remove).at - RebaseThrough(me, Owns(es)).splice.at ==
            start - me.at + Strays(es, start, me)
  {
    hide RebaseThrough;
    if es != [] {
      var front, e := es[..|es| - 1], es[|es| - 1];
      RebaseAppend(me, Owns(front), e.own);
      StraysAddUp(front, start, me);
      RowMoves(RebaseThrough(me, Owns(front)).splice, e.own);
    } else {
      NothingCarried(me);
    }
  }

  lemma NothingCarried(me: Splice)
    ensures RebaseThrough(me, []) == Ok(me)
  {
  }

  /** The walk ends `off` bytes from where the edit belongs. */
  predicate EndsOff(es: seq<Entry>, start: nat, me: Splice, off: int) {
    match (EntryWalk(es, start, me.remove), RebaseThrough(me, Owns(es)))
    case (At(y), Ok(r)) => y == r.at + off
    case _ => false
  }

  /** An edit that collides with nothing ends `off` bytes from its place exactly when no record refuses
      it and where it started and the strays add up to `off`. */
  lemma EndsOffIff(es: seq<Entry>, start: nat, me: Splice, off: int)
    requires RebaseThrough(me, Owns(es)).Ok?
    ensures EndsOff(es, start, me, off) <==>
            EntryWalk(es, start, me.remove).At? && start - me.at + Strays(es, start, me) == off
  {
    if EntryWalk(es, start, me.remove).At? {
      StraysAddUp(es, start, me);
    }
  }

  // ---- at every version ---------------------------------------------------

  predicate OffAtEveryVersion(es: seq<Entry>, start: nat, me: Splice, off: int) {
    forall v :: 0 <= v <= |es| ==> EndsOff(es[..v], start, me, off)
  }

  function Place(es: seq<Entry>, me: Splice, v: nat): nat
    requires v <= |es|
  {
    match RebaseThrough(me, Owns(es[..v])) case Ok(r) => r.at case Err(_) => 0
  }

  /** The commit lets the offset pass and moves it as it moved the edit. */
  predicate Keeps(e: Entry, at: nat, len: nat, off: int) {
    0 <= at + off && EntryStep(e, at + off, len).At? && Stray(e, at + off, at) == 0
  }

  /** At every version the walk is `off` bytes away exactly when it starts so and no commit strays. */
  lemma OffAtEveryVersionIff(es: seq<Entry>, start: nat, me: Splice, off: int)
    requires RebaseThrough(me, Owns(es)).Ok?
    ensures OffAtEveryVersion(es, start, me, off) <==>
            start == me.at + off && forall v: nat :: v < |es| ==> Keeps(es[v], Place(es, me, v), me.remove, off)
  {
    hide EndsOff, Keeps, RebaseThrough, Owns;
    assert EndsOff(es[..0], start, me, off) <==> start == me.at + off by {
      assert es[..0] == [];
      NothingEnds(start, me, off);
    }
    if OffAtEveryVersion(es, start, me, off) {
      forall v: nat | v < |es|
        ensures Keeps(es[v], Place(es, me, v), me.remove, off)
      {
        assert EndsOff(es[..v], start, me, off) && EndsOff(es[..v + 1], start, me, off);
        VersionStep(es, start, me, off, v);
      }
    }
    if start == me.at + off && forall v: nat :: v < |es| ==> Keeps(es[v], Place(es, me, v), me.remove, off) {
      forall v | 0 <= v <= |es|
        ensures EndsOff(es[..v], start, me, off)
      {
        KeptSoFar(es, start, me, off, v);
      }
    }
  }

  lemma NothingEnds(start: nat, me: Splice, off: int)
    ensures EndsOff([], start, me, off) <==> start == me.at + off
  {
  }

  lemma PrefixCarried(es: seq<Entry>, me: Splice, v: nat)
    requires RebaseThrough(me, Owns(es)).Ok? && v <= |es|
    ensures RebaseThrough(me, Owns(es[..v])).Ok? && RebaseThrough(me, Owns(es[..v])).splice.remove == me.remove
  {
    hide RebaseThrough, Owns;
    OwnsApart(es, v);
    RebaseAppend(me, Owns(es[..v]), Owns(es[v..]));
    RebaseThroughKeepsPlace(me, Owns(es[..v]), 0);
  }

  lemma VersionStep(es: seq<Entry>, start: nat, me: Splice, off: int, v: nat)
    requires RebaseThrough(me, Owns(es)).Ok? && v < |es| && EndsOff(es[..v], start, me, off)
    ensures EndsOff(es[..v + 1], start, me, off) <==> Keeps(es[v], Place(es, me, v), me.remove, off)
  {
    hide RebaseThrough, Owns, EntryWalk;
    PrefixCarried(es, me, v);
    PrefixCarried(es, me, v + 1);
    assert es[..v + 1] == es[..v] + [es[v]];
    WalkSnoc(es[..v], es[v], start, me.remove);
    RebaseAppend(me, Owns(es[..v]), es[v].own);
    RowMoves(RebaseThrough(me, Owns(es[..v])).splice, es[v].own);
  }

  lemma {:induction false} KeptSoFar(es: seq<Entry>, start: nat, me: Splice, off: int, v: nat)
    requires RebaseThrough(me, Owns(es)).Ok? && v <= |es| && start == me.at + off
    requires forall u: nat :: u < |es| ==> Keeps(es[u], Place(es, me, u), me.remove, off)
    ensures EndsOff(es[..v], start, me, off)
    decreases v
  {
    hide EndsOff, Keeps, RebaseThrough, Owns, Place;
    if v == 0 {
      assert es[..0] == [];
      NothingEnds(start, me, off);
    } else {
      KeptSoFar(es, start, me, off, v - 1);
      VersionStep(es, start, me, off, v - 1);
    }
  }

  // ---- whatever was committed ---------------------------------------------

  /** A history of the value whose records tell the truth to edits like this one. */
  ghost predicate Told(base: string, es: seq<Entry>, bare: bool) {
    && FitsAll(Owns(es), base) && AllOrdered(es)
    && forall t: nat :: t < |es| ==> EntryTells(es[t], |Version(base, es, t)|, bare)
  }

  /** Started `off` bytes from its place, the edit ends `off` bytes from its place or is refused. */
  ghost predicate SafeWhenMoved(edit: Splice, off: int)
    requires 0 <= edit.at + off
  {
    forall base: string, es: seq<Entry> :: Fits(edit, base) && Told(base, es, edit.remove == 0) ==> NotMisled(es, edit, off)
  }

  ghost predicate NotMisled(es: seq<Entry>, edit: Splice, off: int)
    requires 0 <= edit.at + off
  {
    EntryWalk(es, edit.at + off, edit.remove).At? ==> EndsOff(es, edit.at + off, edit, off)
  }

  lemma SinglePointsTell(c: Splice, n: nat)
    requires c.remove == 0 || Delta(c) == 0
    ensures TellsPoints(Record(c), [c], n)
  {
    forall p: nat | p <= n
      ensures RebaseThrough(Splice(p, 0, ""), [c]) == Rebase(Splice(p, 0, ""), c)
    {
      RebaseSnoc(Splice(p, 0, ""), [], c);
      assert [] + [c] == [c];
    }
  }

  /** One splice that tells the truth about itself and misleads an edit that was moved. */
  lemma MovedIsMisled(edit: Splice, off: int, c: Splice, base: string)
    requires 0 <= edit.at + off && Fits(edit, base) && Fits(c, base) && (edit.remove == 0 ==> c.remove == 0)
    requires var out := RingStep(edit.at + off, edit.remove, Record(c));
             out.At? && (Rebase(edit, c).Err? || out.at != Rebase(edit, c).splice.at + off)
    ensures !SafeWhenMoved(edit, off)
  {
    hide *;
    var e := Entry(Some(Record(c)), [c]);
    OneEntry(c, edit, edit.at + off);
    OneIsTold(c, base, edit.remove == 0);
    assert !NotMisled([e], edit, off) by { OneMisleads(edit, off, c); }
    IsUnsafe(edit, off, base, [e]);
  }

  lemma IsUnsafe(edit: Splice, off: int, base: string, es: seq<Entry>)
    requires 0 <= edit.at + off && Fits(edit, base) && Told(base, es, edit.remove == 0) && !NotMisled(es, edit, off)
    ensures !SafeWhenMoved(edit, off)
  {
    hide Told, NotMisled, Fits;
  }

  lemma OneMisleads(edit: Splice, off: int, c: Splice)
    requires 0 <= edit.at + off
    requires var out := RingStep(edit.at + off, edit.remove, Record(c));
             out.At? && (Rebase(edit, c).Err? || out.at != Rebase(edit, c).splice.at + off)
    ensures !NotMisled([Entry(Some(Record(c)), [c])], edit, off)
  {
    hide RingStep, Rebase, EntryWalk, Owns, RebaseThrough;
    OneEntry(c, edit, edit.at + off);
  }

  /** A history of one splice. */
  lemma OneEntry(c: Splice, edit: Splice, at: nat)
    ensures var es := [Entry(Some(Record(c)), [c])];
            && EntryWalk(es, at, edit.remove) == RingStep(at, edit.remove, Record(c))
            && Owns(es) == [c] && RebaseThrough(edit, Owns(es)) == Rebase(edit, c)
  {
    hide RingStep, Rebase;
    var e := Entry(Some(Record(c)), [c]);
    WalkSnoc([], e, at, edit.remove);
    assert [] + [e] == [e] && [] + [c] == [c];
    RebaseSnoc(edit, [], c);
  }

  lemma OneIsTold(c: Splice, base: string, bare: bool)
    requires Fits(c, base) && (bare ==> c.remove == 0)
    ensures Told(base, [Entry(Some(Record(c)), [c])], bare)
  {
    hide Tells, TellsPoints, Apply;
    var e := Entry(Some(Record(c)), [c]);
    OneEntry(c, c, 0);
    assert [c][1..] == [] && FitsAll([c], base);
    assert [e][..0] == [] && Version(base, [e], 0) == base;
    SingleTells(c, |base|);
    if c.remove == 0 {
      SinglePointsTell(c, |base|);
    }
  }

  /** Whatever is committed with true records, a survivor is never misled exactly when the batch did not move it. */
  lemma SafeWhenMovedIff(edit: Splice, off: int)
    requires 0 <= edit.at + off
    ensures SafeWhenMoved(edit, off) <==> off == 0
  {
    hide Told;
    if off == 0 {
      forall base: string, es: seq<Entry> | Fits(edit, base) && Told(base, es, edit.remove == 0)
        ensures NotMisled(es, edit, 0)
      {
        UnmovedIsRight(base, es, edit);
      }
    } else {
      var base: string := seq(End(edit) + 2, _ => ' ');
      var c := if edit.remove == 0 then Splice(if off > 0 then edit.at + 1 else edit.at, 0, "X")
               else Splice(if off > 0 then edit.at else End(edit) - 1, 1, "");
      MovedIsMisled(edit, off, c, base);
    }
  }

  lemma UnmovedIsRight(base: string, es: seq<Entry>, edit: Splice)
    requires Fits(edit, base) && Told(base, es, edit.remove == 0)
    ensures NotMisled(es, edit, 0) && WalkIsRight(es, edit)
  {
    hide FitsAll, EntryTells, RebaseThrough;
    assert es[..0] == [] && es[0..|es|] == es;
    assert Version(base, es, 0) == base;
    ToldHistory(base, es, edit.remove == 0, 0, |es|, edit);
  }
}
