/**
 * A set of edits of one value, none overlapping another, applied one after the other at
 * shifted offsets: the text that comes out is all of them at once, each where it was put.
 */
module EditBatch {
  import opened SubEdit

  // ---- shifts -------------------------------------------------------------

  predicate Overlaps(a: Splice, s: Splice) {
    a.at < End(s) && s.at < End(a)
  }

  function Delta(e: Splice): int {
    |e.insert| - e.remove
  }

  /** How far the applied edits that end at or before `p` move it. */
  function Shift(applied: seq<Splice>, p: nat): int {
    if applied == [] then 0
    else
      var last := applied[|applied| - 1];
      Shift(applied[..|applied| - 1], p) + if End(last) <= p then Delta(last) else 0
  }

  predicate Clear(applied: seq<Splice>, s: Splice) {
    forall i :: 0 <= i < |applied| ==> !Overlaps(applied[i], s)
  }

  /** An edit stays in the batch when the value can hold it and nothing applied overlaps it. */
  predicate Accepts(base: string, applied: seq<Splice>, s: Splice) {
    Fits(s, base) && Clear(applied, s)
  }

  // ---- the meaning of a set of edits --------------------------------------

  /** What is typed at `p` without removing anything, in counter order. */
  function Typed(edits: seq<Splice>, p: nat): string {
    if edits == [] then ""
    else
      var last, rest := edits[|edits| - 1], Typed(edits[..|edits| - 1], p);
      if last.at == p && last.remove == 0 then rest + last.insert else rest
  }

  /** What replaces the text from `p` on. */
  function Replacing(edits: seq<Splice>, p: nat): string {
    if edits == [] then ""
    else
      var last, rest := edits[|edits| - 1], Replacing(edits[..|edits| - 1], p);
      if last.at == p && last.remove > 0 then rest + last.insert else rest
  }

  predicate Gone(edits: seq<Splice>, p: nat) {
    exists i :: 0 <= i < |edits| && Removes(edits[i], p)
  }

  function Kept(base: string, edits: seq<Splice>, p: nat): string {
    if p < |base| && !Gone(edits, p) then [base[p]] else ""
  }

  function Chunk(base: string, edits: seq<Splice>, p: nat): string {
    Typed(edits, p) + Replacing(edits, p) + Kept(base, edits, p)
  }

  function Between(base: string, edits: seq<Splice>, lo: nat, hi: nat): string
    decreases hi
  {
    if hi <= lo then "" else Between(base, edits, lo, hi - 1) + Chunk(base, edits, hi - 1)
  }

  /**
   * All edits at once, each where its author put it in the old value: at every position
   * what is typed there, then what replaces the text there, then the byte if it is kept.
   */
  function Merged(base: string, edits: seq<Splice>): string {
    Between(base, edits, 0, |base| + 1)
  }

  predicate AllApart(base: string, edits: seq<Splice>) {
    edits != [] ==>
      var front := edits[..|edits| - 1];
      AllApart(base, front) && Accepts(base, front, edits[|edits| - 1])
  }

  /** The merged text up to where an edit at `p` goes. */
  function Lead(base: string, edits: seq<Splice>, p: nat): string {
    Between(base, edits, 0, p) + Typed(edits, p)
  }

  // ---- pieces of the merged text ------------------------------------------

  lemma {:induction false} BetweenSplit(base: string, edits: seq<Splice>, lo: nat, mid: nat, hi: nat)
    requires lo <= mid <= hi
    ensures Between(base, edits, lo, hi) == Between(base, edits, lo, mid) + Between(base, edits, mid, hi)
    decreases hi
  {
    hide Chunk;
    if mid < hi {
      BetweenSplit(base, edits, lo, mid, hi - 1);
    } else {
      assert Between(base, edits, lo, mid) + "" == Between(base, edits, lo, mid);
    }
  }

  lemma {:induction false} BetweenSame(base: string, a: seq<Splice>, b: seq<Splice>, lo: nat, hi: nat)
    requires forall p :: lo <= p < hi ==> Chunk(base, a, p) == Chunk(base, b, p)
    ensures Between(base, a, lo, hi) == Between(base, b, lo, hi)
    decreases hi
  {
    hide Chunk;
    if lo < hi {
      BetweenSame(base, a, b, lo, hi - 1);
    }
  }

  /** Text no edit touches is kept as it is. */
  lemma {:induction false} BetweenUntouched(base: string, edits: seq<Splice>, lo: nat, hi: nat)
    requires lo <= hi <= |base|
    requires forall p :: lo <= p < hi ==> Chunk(base, edits, p) == [base[p]]
    ensures Between(base, edits, lo, hi) == base[lo..hi]
    decreases hi
  {
    hide Chunk;
    if lo < hi {
      BetweenUntouched(base, edits, lo, hi - 1);
      assert base[lo..hi] == base[lo..hi - 1] + [base[hi - 1]];
    }
  }

  lemma {:induction false} BetweenEmpty(base: string, edits: seq<Splice>, lo: nat, hi: nat)
    requires forall p :: lo <= p < hi ==> Chunk(base, edits, p) == ""
    ensures Between(base, edits, lo, hi) == ""
    decreases hi
  {
    hide Chunk;
    if lo < hi {
      BetweenEmpty(base, edits, lo, hi - 1);
    }
  }

  // ---- one more edit ------------------------------------------------------

  lemma Snoc(edits: seq<Splice>, s: Splice, p: nat)
    ensures Typed(edits + [s], p) == Typed(edits, p) + (if s.at == p && s.remove == 0 then s.insert else "")
    ensures Replacing(edits + [s], p) == Replacing(edits, p) + (if s.at == p && s.remove > 0 then s.insert else "")
    ensures Gone(edits + [s], p) <==> Gone(edits, p) || Removes(s, p)
  {
    assert (edits + [s])[..|edits|] == edits;
    assert Typed(edits, p) + "" == Typed(edits, p) && Replacing(edits, p) + "" == Replacing(edits, p);
    var all := edits + [s];
    if Removes(s, p) {
      assert Removes(all[|edits|], p);
    }
    if Gone(edits, p) {
      var i :| 0 <= i < |edits| && Removes(edits[i], p);
      assert Removes(all[i], p);
    }
  }

  /** A stretch that an edit clear of the others removes is untouched by them. */
  lemma {:induction false} InsideIsUntouched(edits: seq<Splice>, s: Splice, p: nat)
    requires Clear(edits, s) && Removes(s, p)
    ensures !Gone(edits, p) && Replacing(edits, p) == "" && (p > s.at ==> Typed(edits, p) == "")
  {
    if edits != [] {
      var front, last := edits[..|edits| - 1], edits[|edits| - 1];
      assert !Overlaps(last, s);
      InsideIsUntouched(front, s, p);
    }
  }

  lemma ChunkOutside(base: string, edits: seq<Splice>, s: Splice, p: nat)
    requires p != s.at && !Removes(s, p)
    ensures Chunk(base, edits + [s], p) == Chunk(base, edits, p)
  {
    hide Gone, Typed, Replacing;
    Snoc(edits, s, p);
  }

  lemma ChunkInside(base: string, edits: seq<Splice>, s: Splice, p: nat)
    requires Clear(edits, s) && Removes(s, p) && p != s.at && p < |base|
    ensures Chunk(base, edits, p) == [base[p]] && Chunk(base, edits + [s], p) == ""
  {
    hide Gone, Typed, Replacing;
    Snoc(edits, s, p);
    InsideIsUntouched(edits, s, p);
  }

  lemma ChunkAt(base: string, edits: seq<Splice>, s: Splice)
    requires Clear(edits, s) && Fits(s, base)
    ensures s.remove > 0 ==> Chunk(base, edits, s.at) == Typed(edits, s.at) + [base[s.at]]
    ensures s.remove > 0 ==> Chunk(base, edits + [s], s.at) == Typed(edits, s.at) + s.insert
    ensures s.remove == 0 ==>
              Chunk(base, edits + [s], s.at) ==
              Typed(edits, s.at) + s.insert + (Replacing(edits, s.at) + Kept(base, edits, s.at))
    ensures s.remove == 0 ==>
              Chunk(base, edits, s.at) == Typed(edits, s.at) + (Replacing(edits, s.at) + Kept(base, edits, s.at))
  {
    hide Gone, Typed, Replacing;
    Snoc(edits, s, s.at);
    if s.remove > 0 {
      InsideIsUntouched(edits, s, s.at);
    }
  }

  /** What follows an edit in the merged text, up to `hi`. */
  function Rest(base: string, edits: seq<Splice>, s: Splice, hi: nat): string {
    if s.remove > 0 then Between(base, edits, End(s), hi)
    else Replacing(edits, s.at) + Kept(base, edits, s.at) + Between(base, edits, s.at + 1, hi)
  }

  /** Without the edit the text holds the bytes it removes, with it what it inserts. */
  lemma OneMore(base: string, edits: seq<Splice>, s: Splice, hi: nat)
    requires Clear(edits, s) && Fits(s, base) && hi > s.at && hi >= End(s)
    ensures Between(base, edits, 0, hi) == Lead(base, edits, s.at) + base[s.at..End(s)] + Rest(base, edits, s, hi)
    ensures Between(base, edits + [s], 0, hi) == Lead(base, edits, s.at) + s.insert + Rest(base, edits, s, hi)
  {
    if s.remove > 0 {
      OneMoreRemoving(base, edits, s, hi);
    } else {
      OneMoreTyping(base, edits, s, hi);
    }
  }

  lemma OneMoreRemoving(base: string, edits: seq<Splice>, s: Splice, hi: nat)
    requires Clear(edits, s) && Fits(s, base) && hi > s.at && hi >= End(s) && s.remove > 0
    ensures var lead, z := Lead(base, edits, s.at), Between(base, edits, End(s), hi);
            && Between(base, edits, 0, hi) == lead + base[s.at..End(s)] + z
            && Between(base, edits + [s], 0, hi) == lead + s.insert + z
  {
    hide Between, Chunk, Typed, Replacing, Kept, Fits, Clear;
    OneMoreSides(base, edits, s, hi);
    ChunkAt(base, edits, s);
    var all := edits + [s];
    Around(base, edits, s.at, hi);
    Around(base, all, s.at, hi);
    assert s.at < End(s) <= |base| by { assert Fits(s, base); Bounds(s, base); }
    var a, t := Between(base, edits, 0, s.at), Typed(edits, s.at);
    var c, m, z := [base[s.at]], base[s.at + 1..End(s)], Between(base, edits, End(s), hi);
    assert base[s.at..End(s)] == c + m;
    Regroup(a, t, c, m, z);
    Regroup(a, t, s.insert, "", z);
    assert s.insert + "" == s.insert && "" + z == z;
  }

  lemma OneMoreTyping(base: string, edits: seq<Splice>, s: Splice, hi: nat)
    requires Clear(edits, s) && Fits(s, base) && hi > s.at && s.remove == 0
    ensures var lead, rest := Lead(base, edits, s.at), Rest(base, edits, s, hi);
            && Between(base, edits, 0, hi) == lead + base[s.at..End(s)] + rest
            && Between(base, edits + [s], 0, hi) == lead + s.insert + rest
  {
    hide Between, Chunk, Typed, Replacing, Kept, Fits, Clear;
    OneMoreSides(base, edits, s, hi);
    ChunkAt(base, edits, s);
    var all := edits + [s];
    Around(base, edits, s.at, hi);
    Around(base, all, s.at, hi);
    Bounds(s, base);
    var a, t := Between(base, edits, 0, s.at), Typed(edits, s.at);
    var k, z := Replacing(edits, s.at) + Kept(base, edits, s.at), Between(base, edits, s.at + 1, hi);
    Regroup(a, t, s.insert, k, z);
    Regroup(a, t, "", k, z);
    assert t + "" == t && base[s.at..End(s)] == "";
  }

  lemma Bounds(s: Splice, base: string)
    requires Fits(s, base)
    ensures s.at <= End(s) <= |base|
  {
  }

  lemma Regroup(a: string, t: string, c: string, m: string, z: string)
    ensures a + ((t + c) + (m + z)) == (a + t) + (c + m) + z
    ensures a + ((t + c + m) + z) == (a + t) + c + (m + z)
  {
  }

  /** The text around one position. */
  lemma Around(base: string, edits: seq<Splice>, p: nat, hi: nat)
    requires p < hi
    ensures Between(base, edits, 0, hi) ==
            Between(base, edits, 0, p) + (Chunk(base, edits, p) + Between(base, edits, p + 1, hi))
  {
    BetweenSplit(base, edits, 0, p, hi);
    BetweenSplit(base, edits, p, p + 1, hi);
    BetweenOne(base, edits, p);
  }

  lemma BetweenOne(base: string, edits: seq<Splice>, p: nat)
    ensures Between(base, edits, p, p + 1) == Chunk(base, edits, p)
  {
    hide Chunk;
    assert Between(base, edits, p, p) == "";
  }

  /** On both sides of the edit the two texts agree. */
  lemma OneMoreSides(base: string, edits: seq<Splice>, s: Splice, hi: nat)
    requires Clear(edits, s) && Fits(s, base) && hi > s.at && hi >= End(s)
    ensures Between(base, edits + [s], 0, s.at) == Between(base, edits, 0, s.at)
    ensures s.remove == 0 ==> Between(base, edits + [s], s.at + 1, hi) == Between(base, edits, s.at + 1, hi)
    ensures s.remove > 0 ==> Between(base, edits + [s], s.at + 1, hi) == Between(base, edits, End(s), hi)
    ensures s.remove > 0 ==>
              Between(base, edits, s.at + 1, hi) == base[s.at + 1..End(s)] + Between(base, edits, End(s), hi)
  {
    hide Chunk, Between;
    var all := edits + [s];
    forall p: nat | p != s.at && !Removes(s, p)
      ensures Chunk(base, all, p) == Chunk(base, edits, p)
    {
      ChunkOutside(base, edits, s, p);
    }
    BetweenSame(base, all, edits, 0, s.at);
    if s.remove == 0 {
      BetweenSame(base, all, edits, s.at + 1, hi);
    } else {
      BetweenSame(base, all, edits, End(s), hi);
      forall p: nat | s.at + 1 <= p < End(s)
        ensures Chunk(base, edits, p) == [base[p]] && Chunk(base, all, p) == ""
      {
        ChunkInside(base, edits, s, p);
      }
      BetweenUntouched(base, edits, s.at + 1, End(s));
      BetweenEmpty(base, all, s.at + 1, End(s));
      BetweenSplit(base, edits, s.at + 1, End(s), hi);
      BetweenSplit(base, all, s.at + 1, End(s), hi);
      assert "" + Between(base, all, End(s), hi) == Between(base, all, End(s), hi);
    }
  }

  // ---- offsets ------------------------------------------------------------

  /** No edit removes the text on both sides of `p`. */
  predicate Outside(edits: seq<Splice>, p: nat) {
    forall i :: 0 <= i < |edits| ==> !(edits[i].at < p < End(edits[i]))
  }

  lemma {:induction false} LeadOfNothing(base: string, p: nat)
    requires p <= |base|
    ensures Between(base, [], 0, p) == base[..p] && Typed([], p) == ""
  {
    assert forall q :: 0 <= q < p ==> Chunk(base, [], q) == [base[q]];
    BetweenUntouched(base, [], 0, p);
  }

  /** The shift of an offset is exactly the change in length of what comes before it. */
  lemma {:induction false} LeadLength(base: string, edits: seq<Splice>, p: nat)
    requires AllApart(base, edits) && p <= |base| && Outside(edits, p)
    ensures |Lead(base, edits, p)| == p + Shift(edits, p)
    decreases |edits|
  {
    hide Between, Typed, Accepts;
    if edits == [] {
      LeadOfNothing(base, p);
    } else {
      var front, s := edits[..|edits| - 1], edits[|edits| - 1];
      assert edits == front + [s] && Outside(front, p);
      assert !(s.at < p < End(s));
      LeadLength(base, front, p);
      LeadStep(base, front, s, p);
    }
  }

  lemma LeadStep(base: string, front: seq<Splice>, s: Splice, p: nat)
    requires Accepts(base, front, s) && p <= |base| && !(s.at < p < End(s))
    ensures |Lead(base, front + [s], p)| == |Lead(base, front, p)| + (if End(s) <= p then Delta(s) else 0)
  {
    hide Between, Chunk, Typed, Replacing, Gone, Clear;
    var all := front + [s];
    Snoc(front, s, p);
    if s.at < p {
      OneMore(base, front, s, p);
      Bounds(s, base);
    } else {
      forall q: nat | q < p
        ensures Chunk(base, all, q) == Chunk(base, front, q)
      {
        ChunkOutside(base, front, s, q);
      }
      BetweenSame(base, all, front, 0, p);
    }
  }

  lemma ClearIsOutside(edits: seq<Splice>, s: Splice)
    requires Clear(edits, s)
    ensures Outside(edits, s.at)
  {
    forall i | 0 <= i < |edits|
      ensures !(edits[i].at < s.at < End(edits[i]))
    {
      assert !Overlaps(edits[i], s);
    }
  }

  /** Splicing at the shifted offset is adding the edit to the set. */
  lemma MergeStep(base: string, edits: seq<Splice>, s: Splice)
    requires AllApart(base, edits) && Accepts(base, edits, s)
    ensures var at := s.at + Shift(edits, s.at);
            && 0 <= at && at + s.remove <= |Merged(base, edits)|
            && Merged(base, edits + [s]) == Apply(Splice(at, s.remove, s.insert), Merged(base, edits))
  {
    hide Between, Apply, Shift, AllApart;
    ClearIsOutside(edits, s);
    Bounds(s, base);
    LeadLength(base, edits, s.at);
    OneMore(base, edits, s, |base| + 1);
    var lead, gone, rest := Lead(base, edits, s.at), base[s.at..End(s)], Rest(base, edits, s, |base| + 1);
    ApplyParts(lead, gone, rest, s.insert);
  }

  lemma {:induction false} PastTheEnd(base: string, edits: seq<Splice>, p: nat)
    requires AllApart(base, edits) && p >= |base|
    ensures Shift(edits, p) == Shift(edits, |base|) && Replacing(edits, |base|) == "" && Outside(edits, |base|)
    decreases |edits|
  {
    if edits != [] {
      PastTheEnd(base, edits[..|edits| - 1], p);
    }
  }

  lemma MergedLength(base: string, edits: seq<Splice>)
    requires AllApart(base, edits)
    ensures |Merged(base, edits)| == |base| + Shift(edits, |base|)
  {
    hide Shift, AllApart, Typed, Replacing;
    PastTheEnd(base, edits, |base|);
    LeadLength(base, edits, |base|);
  }

  /** An edit that runs over the end, clear of the others, finds the end of the value as it was. */
  lemma OverTheEnd(base: string, edits: seq<Splice>, s: Splice)
    requires AllApart(base, edits) && Clear(edits, s) && s.at <= |base| < End(s)
    ensures |Merged(base, edits)| == |Lead(base, edits, s.at)| + |base| - s.at
  {
    hide Between, AllApart, Typed, Replacing, Gone, Clear;
    var n := |base|;
    Around(base, edits, s.at, n + 1);
    InsideIsUntouched(edits, s, s.at);
    forall p: nat | s.at < p <= n
      ensures Chunk(base, edits, p) == if p < n then [base[p]] else ""
    {
      InsideIsUntouched(edits, s, p);
    }
    if s.at < n {
      BetweenUntouched(base, edits, s.at + 1, n);
      BetweenSplit(base, edits, s.at + 1, n, n + 1);
      BetweenOne(base, edits, n);
    } else {
      BetweenEmpty(base, edits, n + 1, n + 1);
    }
  }

  /** The strict range check of the splice accepts exactly the edits the old value could hold. */
  lemma FitsIff(base: string, edits: seq<Splice>, s: Splice)
    requires AllApart(base, edits) && Clear(edits, s)
    ensures var at := s.at + Shift(edits, s.at);
            0 <= at && (at + s.remove <= |Merged(base, edits)| <==> Fits(s, base))
  {
    hide Between, Shift, AllApart, Clear, Merged, Lead;
    if Fits(s, base) {
      MergeStep(base, edits, s);
    } else if s.at > |base| {
      PastTheEnd(base, edits, s.at);
      MergedLength(base, edits);
    } else {
      ClearIsOutside(edits, s);
      LeadLength(base, edits, s.at);
      OverTheEnd(base, edits, s);
    }
  }

  lemma MergedNothing(base: string)
    ensures Merged(base, []) == base
  {
    LeadOfNothing(base, |base|);
    assert base[..|base|] == base;
  }
}
