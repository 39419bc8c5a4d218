/**
 * A commit leaves one span and one change of length in the ring, whatever its statements
 * did. This says exactly when that is the truth about a value: when a walk that goes by
 * the record refuses or carries every pending edit as the statements themselves would.
 */
module RecordTruth {
  import opened Options
  import opened SubEdit

  /** No splice removes one of two neighbouring bytes or is put between them. */
  predicate Together(own: seq<Splice>, p: nat)
    decreases |own|
  {
    own == [] ||
      (var q := Moved(own[0], p);
       && q.Some? && Moved(own[0], p + 1).Some? && !(own[0].remove == 0 && own[0].at == p + 1)
       && Together(own[1..], q.value))
  }

  /** Where the record says the byte at `p` is, unless it says that nobody can tell. */
  function Said(w: Written, p: nat): Option<nat> {
    if p < w.lo then Some(p) else if w.hi <= p && 0 <= p + w.delta then Some(p + w.delta) else None
  }

  /** Neighbouring bytes on the same side of the span. */
  predicate SaidTogether(w: Written, p: nat) {
    p + 1 < w.lo || (w.hi <= p && 0 <= p + w.delta)
  }

  /**
   * The record tells the truth about the first `n` bytes: each byte outside the span is where
   * it says, and next to its neighbour.
   */
  predicate Tells(w: Written, own: seq<Splice>, n: nat) {
    && (forall p: nat :: p < n && Said(w, p).Some? ==> MovedThrough(own, p) == Said(w, p))
    && (forall p: nat :: p + 1 < n && SaidTogether(w, p) ==> Together(own, p))
  }

  /** The record tells where an insertion between two bytes goes; one exactly at its start counts as behind. */
  predicate TellsPoints(w: Written, own: seq<Splice>, n: nat) {
    forall p: nat :: p <= n && (p <= w.lo || w.hi <= p) && (w.lo <= p ==> 0 <= p + w.delta) ==>
      RebaseThrough(Splice(p, 0, ""), own) == Ok(Splice(if p < w.lo then p else p + w.delta, 0, ""))
  }

  /** What the walk answers for a pending edit is what the statements did to it. */
  predicate Right(w: Written, own: seq<Splice>, me: Splice) {
    var out := RingStep(me.at, me.remove, w);
    out.At? ==> RebaseThrough(me, own) == Ok(me.(at := out.at))
  }

  // ---- an edit and its bytes ----------------------------------------------

  /** Through a history an edit of one byte is its byte. */
  lemma {:induction false} ByteCarried(me: Splice, own: seq<Splice>)
    requires me.remove == 1
    ensures RebaseThrough(me, own).Ok? <==> MovedThrough(own, me.at).Some?
    ensures RebaseThrough(me, own).Ok? ==> RebaseThrough(me, own) == Ok(me.(at := MovedThrough(own, me.at).value))
    decreases |own|
  {
    if own != [] && Rebase(me, own[0]).Ok? {
      ByteCarried(Rebase(me, own[0]).splice, own[1..]);
    }
  }

  lemma {:induction false} PairCarried(me: Splice, own: seq<Splice>)
    requires me.remove == 2
    ensures RebaseThrough(me, own).Ok? <==> Together(own, me.at)
    decreases |own|
  {
    if own != [] && Rebase(me, own[0]).Ok? {
      PairCarried(Rebase(me, own[0]).splice, own[1..]);
    }
  }

  /** The bytes of an edit that is carried go with it, and so do the points before them. */
  lemma {:induction false} PartCarried(me: Splice, part: Splice, own: seq<Splice>)
    requires RebaseThrough(me, own).Ok? && me.at <= part.at < End(me) && End(part) <= End(me)
    ensures RebaseThrough(part, own) == Ok(part.(at := RebaseThrough(me, own).splice.at + part.at - me.at))
    decreases |own|
  {
    if own != [] {
      var m := Rebase(me, own[0]).splice;
      var p := Rebase(part, own[0]).splice;
      assert p.at - m.at == part.at - me.at;
      PartCarried(m, p, own[1..]);
    }
  }

  /** A collision is a collision with one byte or with two neighbours. */
  lemma {:induction false} ClashIsSmall(me: Splice, own: seq<Splice>) returns (part: Splice)
    requires RebaseThrough(me, own).Err? && me.remove > 0
    ensures 1 <= part.remove <= 2 && me.at <= part.at && End(part) <= End(me) && RebaseThrough(part, own).Err?
    decreases |own|
  {
    var c := own[0];
    match Rebase(me, c)
    case Ok(m) =>
      var q := ClashIsSmall(m, own[1..]);
      part := q.(at := me.at + q.at - m.at);
      assert Rebase(part, c) == Ok(q);
    case Err(_) =>
      if c.remove > 0 {
        part := Splice(if me.at < c.at then c.at else me.at, 1, "");
      } else {
        part := Splice(c.at - 1, 2, "");
      }
      assert Rebase(part, c).Err?;
  }

  // ---- the exact condition ------------------------------------------------

  lemma ByteIsTold(w: Written, own: seq<Splice>, p: nat)
    requires w.lo <= w.hi
    ensures Right(w, own, Splice(p, 1, "")) <==> (Said(w, p).Some? ==> MovedThrough(own, p) == Said(w, p))
  {
    ByteCarried(Splice(p, 1, ""), own);
  }

  lemma PairIsTold(w: Written, own: seq<Splice>, p: nat)
    requires w.lo <= w.hi && Right(w, own, Splice(p, 2, "")) && SaidTogether(w, p)
    ensures Together(own, p)
  {
    PairCarried(Splice(p, 2, ""), own);
  }

  /** Where every byte is told, an edit the walk does not refuse is carried to where it says. */
  lemma ToldIsRight(w: Written, own: seq<Splice>, n: nat, me: Splice)
    requires w.lo <= w.hi && Tells(w, own, n) && me.remove > 0 && End(me) <= n
    ensures Right(w, own, me)
  {
    var out := RingStep(me.at, me.remove, w);
    if out.At? {
      if RebaseThrough(me, own).Err? {
        var part := ClashIsSmall(me, own);
        if part.remove == 1 {
          ByteCarried(part, own);
        } else {
          PairCarried(part, own);
          assert SaidTogether(w, part.at);
        }
        assert false;
      }
      var first := Splice(me.at, 1, "");
      PartCarried(me, first, own);
      ByteCarried(first, own);
      RebaseThroughKeepsPlace(me, own, me.at);
      assert Said(w, me.at) == Some(out.at);
    }
  }

  /** Every pending edit that removes something and fits is treated rightly, exactly when the record tells the truth. */
  lemma TellsIff(w: Written, own: seq<Splice>, n: nat)
    requires w.lo <= w.hi
    ensures (forall me: Splice :: me.remove > 0 && End(me) <= n ==> Right(w, own, me)) <==> Tells(w, own, n)
  {
    hide Right, Together, MovedThrough;
    if Tells(w, own, n) {
      forall me: Splice | me.remove > 0 && End(me) <= n
        ensures Right(w, own, me)
      {
        ToldIsRight(w, own, n, me);
      }
    }
    if forall me: Splice :: me.remove > 0 && End(me) <= n ==> Right(w, own, me) {
      forall p: nat | p < n && Said(w, p).Some?
        ensures MovedThrough(own, p) == Said(w, p)
      {
        assert Right(w, own, Splice(p, 1, ""));
        ByteIsTold(w, own, p);
      }
      forall p: nat | p + 1 < n && SaidTogether(w, p)
        ensures Together(own, p)
      {
        assert Right(w, own, Splice(p, 2, ""));
        PairIsTold(w, own, p);
      }
    }
  }

  /** What is inserted does not matter to where. */
  lemma {:induction false} TextCarriesNothing(me: Splice, text: string, own: seq<Splice>)
    ensures RebaseThrough(me.(insert := text), own) ==
            match RebaseThrough(me, own) case Err(c) => Err(c) case Ok(r) => Ok(r.(insert := text))
    decreases |own|
  {
    if own != [] && Rebase(me, own[0]).Ok? {
      TextCarriesNothing(Rebase(me, own[0]).splice, text, own[1..]);
    }
  }

  lemma PointIsTold(w: Written, own: seq<Splice>, me: Splice)
    requires w.lo <= w.hi && me.remove == 0
    ensures Right(w, own, me) <==> Right(w, own, Splice(me.at, 0, ""))
  {
    TextCarriesNothing(me, "", own);
    TextCarriesNothing(Splice(me.at, 0, ""), me.insert, own);
  }

  /** The same for insertions. */
  lemma TellsPointsIff(w: Written, own: seq<Splice>, n: nat)
    requires w.lo <= w.hi
    ensures (forall me: Splice :: me.remove == 0 && me.at <= n ==> Right(w, own, me)) <==> TellsPoints(w, own, n)
  {
    if TellsPoints(w, own, n) {
      forall me: Splice | me.remove == 0 && me.at <= n
        ensures Right(w, own, me)
      {
        PointIsTold(w, own, me);
      }
    }
    if forall me: Splice :: me.remove == 0 && me.at <= n ==> Right(w, own, me) {
      forall p: nat | p <= n && (p <= w.lo || w.hi <= p) && (w.lo <= p ==> 0 <= p + w.delta)
        ensures RebaseThrough(Splice(p, 0, ""), own) == Ok(Splice(if p < w.lo then p else p + w.delta, 0, ""))
      {
        assert Right(w, own, Splice(p, 0, ""));
      }
    }
  }

  /** The record of a single splice always tells the truth about removals. */
  lemma SingleTells(c: Splice, n: nat)
    ensures Tells(Record(c), [c], n)
  {
    assert [c][1..] == [];
    forall me: Splice | me.remove > 0 && End(me) <= n
      ensures Right(Record(c), [c], me)
    {
      RingAgreesIff(me, c);
      if Rebase(me, c).Ok? {
        assert RebaseThrough(Rebase(me, c).splice, []) == Rebase(me, c);
      }
    }
    TellsIff(Record(c), [c], n);
  }
}
