/** The committed-footprint ring and the conflict test that a guarded commit runs against it.
    A 64-bit mask is the set of its set bits; a key stands for its 64-bit hash. */
module GuardRing {
  import opened Options
  import S = SubEdit

  const SLOTS: nat := 256
  const MAX_KEYS: nat := 8

  function Bits(n: nat): (b: set<nat>)
    ensures forall i: nat :: i in b <==> i < n
  {
    if n == 0 then {} else Bits(n - 1) + {n - 1}
  }

  function AllBits(): (b: set<nat>)
    ensures forall i: nat :: i in b <==> i < 64
  {
    Bits(64)
  }

  /** What one statement reads or writes. `None` means "could be any" in every dimension;
      two different proven shards hold different rows. `delta` is the change of length a splice
      makes, and 0 for any other statement. */
  datatype Touch = Touch(table: nat, key: Option<nat>, cols: Option<set<nat>>,
                         range: Option<(nat, nat)>, shard: Option<nat>, delta: int)

  datatype Kind = Empty | Point(key: nat) | Table | Region(regions: set<nat>) | Shard(id: nat)

  datatype Footprint = Footprint(kind: Kind, tables: set<nat>, keys: Option<set<nat>>,
                                 cols: set<nat>, range: Option<(nat, nat)>, delta: int)

  datatype RangeClaim = Whole | Bytes(lo: nat, hi: nat) | Settled

  datatype Surface = Surface(tables: set<nat>, regions: set<nat>, keys: Option<set<nat>>,
                             shard: Option<nat>, cols: set<nat>, range: RangeClaim)

  datatype Verdict = Clear | Overlap | SnapshotTooOld | RingGap

  // ---- summaries: each dimension is widened statement by statement ----

  function Tables(ts: seq<Touch>): set<nat> { set i | 0 <= i < |ts| :: ts[i].table % 64 }

  predicate AllNamed(ts: seq<Touch>) { forall i :: 0 <= i < |ts| ==> ts[i].key.Some? }

  function NamedKeys(ts: seq<Touch>): set<nat> { set i | 0 <= i < |ts| && ts[i].key.Some? :: ts[i].key.value }

  /** The exact keys, given up for good once one cannot be named or there are too many. */
  function Keys(ts: seq<Touch>): Option<set<nat>> {
    if AllNamed(ts) && 0 < |NamedKeys(ts)| <= MAX_KEYS then Some(NamedKeys(ts)) else None
  }

  function Regions(ts: seq<Touch>): set<nat> {
    if AllNamed(ts) && ts != [] then set k | k in NamedKeys(ts) :: k % 64 else AllBits()
  }

  function NamedCols(ts: seq<Touch>): set<nat> {
    if ts == [] then {}
    else NamedCols(ts[1..]) + match ts[0].cols case None => AllBits() case Some(cs) => set c | c in cs :: c % 64
  }

  function Cols(ts: seq<Touch>): set<nat> { if NamedCols(ts) == {} then AllBits() else NamedCols(ts) }

  function ShardOf(ts: seq<Touch>): Option<nat> {
    if ts != [] && forall i :: 0 <= i < |ts| ==> ts[i].shard == ts[0].shard then ts[0].shard else None
  }

  /** The smallest span around every named range, or nothing once one is unnamed. */
  function RangeOf(ts: seq<Touch>): (r: Option<(nat, nat)>)
    ensures r.Some? ==> forall i :: 0 <= i < |ts| ==>
              ts[i].range.Some? && r.value.0 <= ts[i].range.value.0 && ts[i].range.value.1 <= r.value.1
  {
    if ts == [] || ts[0].range.None? then None
    else if |ts| == 1 then ts[0].range
    else match RangeOf(ts[1..])
         case None => None
         case Some((lo, hi)) =>
           var (a, b) := ts[0].range.value;
           Some((if a < lo then a else lo, if b > hi then b else hi))
  }

  /** How much longer the statements together make a value. */
  function DeltaOf(ts: seq<Touch>): int {
    if ts == [] then 0 else ts[0].delta + DeltaOf(ts[1..])
  }

  /** What a commit publishes about the statements that wrote. */
  function FootprintOf(writes: seq<Touch>): Footprint {
    var kind := if writes == [] then Empty
                else match ShardOf(writes) case Some(id) => Shard(id) case None => Region(Regions(writes));
    Footprint(kind, Tables(writes), Keys(writes), Cols(writes), RangeOf(writes), DeltaOf(writes))
  }

  /** What a guarded action claims for everything it declared or ran. */
  function SurfaceOf(touches: seq<Touch>, rebased: bool): Surface {
    Surface(Tables(touches), Regions(touches), Keys(touches), ShardOf(touches), Cols(touches),
            if rebased then Settled
            else match RangeOf(touches) case Some((lo, hi)) => (if lo <= hi then Bytes(lo, hi) else Whole) case None => Whole)
  }

  // ---- the conflict test ----

  function KeysMeet(fp: Footprint, s: Surface): bool {
    match fp.kind
    case Empty => false
    case Shard(id) => s.shard.None? || s.shard.value == id
    case Table => true
    case Point(k) =>
      if s.shard.Some? then true
      else if s.keys.Some? && fp.keys.Some? then !(s.keys.value !! fp.keys.value)
      else k % 64 in s.regions
    case Region(r) =>
      if s.shard.Some? then true
      else if s.keys.Some? && fp.keys.Some? then !(s.keys.value !! fp.keys.value)
      else !(r !! s.regions)
  }

  /** The byte test is one-sided: only an edit that begins at or after the end of mine is harmless. */
  predicate BytesMeet(fp: Footprint, s: Surface) {
    match s.range
    case Whole => true
    case Settled => false
    case Bytes(_, hi) => !(fp.range.Some? && fp.range.value.0 >= hi)
  }

  predicate Hits(fp: Footprint, s: Surface) {
    !(fp.tables !! s.tables) && KeysMeet(fp, s) && !(fp.cols !! s.cols) && BytesMeet(fp, s)
  }

  predicate HasCol(t: Touch, c: nat) { t.cols.None? || c in t.cols.value }

  /** Two statements that may concern the same bytes of the same cell. */
  ghost predicate Clash(a: Touch, b: Touch) {
    && a.table == b.table
    && (a.key.None? || b.key.None? || a.key == b.key)
    && (a.shard.None? || b.shard.None? || a.shard == b.shard)
    && (exists c: nat :: HasCol(a, c) && HasCol(b, c))
    && !(a.range.Some? && b.range.Some? && a.range.value.0 >= b.range.value.1)
  }

  lemma {:induction false} ColsCover(ts: seq<Touch>, i: nat, c: nat)
    requires i < |ts| && HasCol(ts[i], c)
    ensures c % 64 in NamedCols(ts) && c % 64 in Cols(ts)
  {
    if i > 0 {
      ColsCover(ts[1..], i - 1, c);
    }
  }

  lemma KeysCover(writes: seq<Touch>, mine: seq<Touch>, i: nat, j: nat)
    requires i < |writes| && j < |mine| && Clash(writes[i], mine[j])
    ensures KeysMeet(FootprintOf(writes), SurfaceOf(mine, false))
  {
    var a, b := writes[i], mine[j];
    var fp, s := FootprintOf(writes), SurfaceOf(mine, false);
    if fp.kind.Region? && s.shard.None? {
      if a.key.Some? && b.key.Some? {
        var k := a.key.value;
        if s.keys.Some? && fp.keys.Some? {
          assert k in s.keys.value && k in fp.keys.value;
        } else {
          RegionCovers(writes, i);
          RegionCovers(mine, j);
          assert k % 64 in fp.kind.regions && k % 64 in s.regions;
        }
      } else {
        RegionCovers(writes, i);
        RegionCovers(mine, j);
        var k := if a.key.Some? then a.key.value else if b.key.Some? then b.key.value else 0;
        assert k % 64 in fp.kind.regions && k % 64 in s.regions;
      }
    }
  }

  lemma RegionCovers(ts: seq<Touch>, i: nat)
    requires i < |ts|
    ensures ts[i].key.Some? ==> ts[i].key.value % 64 in Regions(ts)
    ensures ts[i].key.None? ==> Regions(ts) == AllBits()
  {
    if AllNamed(ts) {
      assert ts[i].key.value in NamedKeys(ts);
    }
  }

  /** Soundness of one comparison: a write that may concern the action's own bytes is always a hit. */
  lemma ClashIsHit(writes: seq<Touch>, mine: seq<Touch>, i: nat, j: nat)
    requires i < |writes| && j < |mine| && Clash(writes[i], mine[j])
    ensures Hits(FootprintOf(writes), SurfaceOf(mine, false))
  {
    var a, b := writes[i], mine[j];
    var fp, s := FootprintOf(writes), SurfaceOf(mine, false);
    KeysCover(writes, mine, i, j);
    assert a.table % 64 in fp.tables && b.table % 64 in s.tables;
    var c :| HasCol(a, c) && HasCol(b, c);
    ColsCover(writes, i, c);
    ColsCover(mine, j, c);
  }

  // ---- the walk over the window ----

  /** What each transaction published; `None` is a commit by a writer that does not record. */
  type History = seq<Option<Footprint>>

  /** Transaction `i + 1` published `h[i]`, so the window after snapshot `i` starts at `h[i]`. */
  function Walk(h: History, i: nat, s: Surface): (v: Verdict)
    ensures v == Clear <==> forall u :: i <= u < |h| ==> h[u].Some? && !Hits(h[u].value, s)
    ensures v != SnapshotTooOld
    decreases |h| - i
  {
    if i >= |h| then Clear
    else match h[i]
         case None => RingGap
         case Some(fp) => if Hits(fp, s) then Overlap else Walk(h, i + 1, s)
  }

  function Judge(h: History, snap: nat, s: Surface): (v: Verdict)
    ensures |h| <= snap ==> v == Clear
  {
    if |h| <= snap then Clear
    else if |h| - snap > SLOTS then SnapshotTooOld
    else Walk(h, snap, s)
  }

  ghost predicate Recorded(h: History, wrote: seq<seq<Touch>>) {
    |wrote| == |h| && forall t :: 0 <= t < |h| && h[t].Some? ==> h[t].value == FootprintOf(wrote[t])
  }

  /** The guard never lets a lost update through: if it clears an action, no commit after the
      snapshot wrote anything that may concern the bytes the action declared. */
  lemma GuardIsSound(h: History, wrote: seq<seq<Touch>>, snap: nat, mine: seq<Touch>, u: nat, i: nat, j: nat)
    requires Recorded(h, wrote) && Judge(h, snap, SurfaceOf(mine, false)) == Clear
    requires snap <= u < |h| && i < |wrote[u]| && j < |mine|
    ensures !Clash(wrote[u][i], mine[j])
  {
    var s := SurfaceOf(mine, false);
    assert h[u].Some? && !Hits(h[u].value, s);
    if Clash(wrote[u][i], mine[j]) {
      ClashIsHit(wrote[u], mine, i, j);
      assert false;
    }
  }

  /** One statement on one named cell of one of the first 64 tables, whole value, no shard. */
  predicate SingleCell(t: Touch) {
    t.table < 64 && t.key.Some? && t.cols.Some? && |t.cols.value| == 1
    && (forall c :: c in t.cols.value ==> c < 64) && t.range.None? && t.shard.None?
  }

  /** Statements that all touch the same cell in the same way. */
  ghost predicate Only(ts: seq<Touch>, t: Touch) { ts != [] && forall i :: 0 <= i < |ts| ==> ts[i] == t }

  /** The guard is exact for actions on one cell: a hit is a write to that very cell. */
  lemma SingleCellExact(writes: seq<Touch>, write: Touch, mine: seq<Touch>, me: Touch)
    requires Only(writes, write) && SingleCell(write) && Only(mine, me) && SingleCell(me)
    ensures Hits(FootprintOf(writes), SurfaceOf(mine, false))
       <==> write.table == me.table && write.key == me.key && write.cols == me.cols
  {
    var c :| c in write.cols.value;
    var d :| d in me.cols.value;
    SingletonOf(write.cols.value, c);
    SingletonOf(me.cols.value, d);
    hide Cols, Keys, Tables, ShardOf, RangeOf, DeltaOf, Regions;
    SingleSummaries(writes, write, c);
    SingleSummaries(mine, me, d);
  }

  lemma SingletonOf(s: set<nat>, x: nat)
    requires |s| == 1 && x in s
    ensures s == {x}
  {
    assert |s - {x}| == 0;
  }

  /** Statements of one column name that column. */
  lemma {:induction false} OnlyColsSame(ts: seq<Touch>, c: nat)
    requires ts != [] && forall i :: 0 <= i < |ts| ==> ts[i].cols == Some({c})
    ensures NamedCols(ts) == {c % 64} == Cols(ts)
  {
    if |ts| > 1 {
      OnlyColsSame(ts[1..], c);
    } else {
      assert ts[1..] == [];
    }
  }

  lemma SingleSummaries(ts: seq<Touch>, t: Touch, c: nat)
    requires Only(ts, t) && SingleCell(t) && t.cols == Some({c})
    ensures Tables(ts) == {t.table} && Keys(ts) == Some({t.key.value}) && ShardOf(ts) == None && RangeOf(ts) == None
    ensures Cols(ts) == {c} && c < 64
  {
    hide NamedCols, Cols, Bits, AllBits;
    OnlyColsSame(ts, c);
    assert ts[0] == t && c in t.cols.value;
    assert AllNamed(ts) && ts[0].key.value in NamedKeys(ts);
    assert NamedKeys(ts) == {t.key.value};
    assert ts[0].table % 64 in Tables(ts);
    assert Tables(ts) == {t.table};
  }

  /** Only a window longer than the ring, or a commit that recorded nothing, is refused without a hit. */
  lemma RefusalsExplained(h: History, snap: nat, s: Surface)
    ensures Judge(h, snap, s) != Clear ==> snap < |h|
    ensures Judge(h, snap, s) in {Overlap, RingGap} ==>
      exists u :: snap <= u < |h| && FirstOffence(h, snap, u, s)
                  && Judge(h, snap, s) == (if h[u].None? then RingGap else Overlap)
    ensures Judge(h, snap, s) == SnapshotTooOld <==> |h| > snap + SLOTS
    ensures |h| <= snap + SLOTS && (forall u :: snap <= u < |h| ==> h[u].Some?) ==>
      && Judge(h, snap, s) != RingGap
      && (Judge(h, snap, s) == Overlap <==> exists u :: snap <= u < |h| && Hits(h[u].value, s))
  {
    if |h| > snap && forall u :: snap <= u < |h| ==> h[u].Some? {
      WalkGap(h, snap, s);
    }
    if Judge(h, snap, s) in {Overlap, RingGap} {
      var u := WalkStops(h, snap, s);
    }
  }

  /** The first commit of the window that is missing or hits; it decides which refusal is reported. */
  ghost predicate FirstOffence(h: History, snap: nat, u: nat, s: Surface)
    requires u < |h|
  {
    && (h[u].None? || Hits(h[u].value, s))
    && forall t :: snap <= t < u ==> h[t].Some? && !Hits(h[t].value, s)
  }

  lemma {:induction false} WalkStops(h: History, i: nat, s: Surface) returns (u: nat)
    requires Walk(h, i, s) != Clear
    ensures i <= u < |h| && FirstOffence(h, i, u, s)
    ensures Walk(h, i, s) == if h[u].None? then RingGap else Overlap
    decreases |h| - i
  {
    hide Hits;
    if h[i].None? || Hits(h[i].value, s) {
      u := i;
    } else {
      u := WalkStops(h, i + 1, s);
    }
  }

  lemma {:induction false} WalkGap(h: History, i: nat, s: Surface)
    requires forall u :: i <= u < |h| ==> h[u].Some?
    ensures Walk(h, i, s) != RingGap
    decreases |h| - i
  {
    if i < |h| {
      WalkGap(h, i + 1, s);
    }
  }

  // ---- carrying a pending sub-edit across the window ----

  /** A pending splice of one cell: the bytes from `at` on, `len` of them, as its author saw them. */
  datatype CellEdit = CellEdit(table: nat, key: nat, col: nat, at: nat, len: nat)

  /** A commit that is known not to have touched the cell. Without exact keys it may have. */
  predicate Skips(fp: Footprint, cell: CellEdit) {
    || fp.kind.Empty?
    || cell.table % 64 !in fp.tables
    || (fp.keys.Some? && cell.key !in fp.keys.value)
    || cell.col % 64 !in fp.cols
  }

  /** A rewrite of the whole value, or of overlapping bytes, is a collision; else the offset moves. */
  function CellStep(fp: Footprint, cell: CellEdit, here: nat): S.Outcome {
    if Skips(fp, cell) then S.At(here)
    else match fp.range
      case None => S.Collision
      case Some((lo, hi)) => S.RingStep(here, cell.len, S.Written(lo, hi, fp.delta))
  }

  /** Through the transactions from `i` up to `n`. */
  function CellWalk(h: History, i: nat, n: nat, cell: CellEdit, here: nat): S.Outcome
    requires n <= |h|
    decreases n - i
  {
    if i >= n then S.At(here)
    else match h[i]
      case None => S.Unanswerable
      case Some(fp) =>
        match CellStep(fp, cell, here)
        case At(next) => CellWalk(h, i + 1, n, cell, next)
        case other => other
  }

  function Rebased(h: History, snap: nat, cell: CellEdit): S.Outcome {
    if |h| <= snap then S.At(cell.at)
    else if |h| - snap > SLOTS then S.Unanswerable
    else CellWalk(h, snap, |h|, cell, cell.at)
  }

  // ---- the ring itself ----

  lemma SlotsApart(t: nat, u: nat)
    requires t < u < t + SLOTS
    ensures t % SLOTS != u % SLOTS
  {
  }

  /** A slot holds the last transaction recorded into it, if any (transaction 0 means none). */
  datatype Slot = Slot(txn: nat, footprint: Footprint)

  /** The shared ring: transaction `t` records into slot `t % SLOTS`, overwriting an older one. */
  class FootprintRing {
    var slots: array<Slot>
    ghost var history: History

    ghost predicate Valid()
      reads this, slots
    {
      && slots.Length == SLOTS
      && (forall k :: 0 <= k < SLOTS ==> slots[k].txn <= |history| && (slots[k].txn > 0 ==> slots[k].txn % SLOTS == k))
      && (forall t :: |history| - SLOTS < t <= |history| && 0 < t ==> SlotOk(t))
    }

    ghost predicate SlotOk(t: nat)
      requires 0 < t <= |history| && slots.Length == SLOTS
      reads this, slots
    {
      match history[t - 1]
      case None => slots[t % SLOTS].txn != t
      case Some(fp) => slots[t % SLOTS] == Slot(t, fp)
    }

    constructor ()
      ensures Valid() && history == [] && fresh(slots)
    {
      slots := new Slot[SLOTS](_ => Slot(0, Footprint(Empty, {}, None, {}, None, 0)));
      history := [];
    }

    /** Under the writer lock, before the commit becomes visible. */
    method Record(txn: nat, fp: Footprint)
      requires Valid() && txn == |history| + 1
      modifies this`history, slots
      ensures Valid() && history == old(history) + [Some(fp)] && slots == old(slots)
    {
      slots[txn % SLOTS] := Slot(txn, fp);
      history := history + [Some(fp)];
      forall t | |history| - SLOTS < t <= |history| && 0 < t ensures SlotOk(t) {
        if t < txn {
          assert old(SlotOk(t));
          assert history[t - 1] == old(history)[t - 1];
          SlotsApart(t, txn);
        }
      }
    }

    /** A writer of another kind commits without recording. */
    ghost method Unrecorded()
      requires Valid()
      modifies this`history
      ensures Valid() && history == old(history) + [None]
    {
      history := history + [None];
      forall t | |history| - SLOTS < t <= |history| && 0 < t ensures SlotOk(t) {
        if t < |history| {
          assert old(SlotOk(t));
          assert history[t - 1] == old(history)[t - 1];
        }
      }
    }

    /** The walk that carries a pending sub-edit forward, reading only the ring. */
    method Rebase(snap: nat, current: nat, cell: CellEdit) returns (out: S.Outcome)
      requires Valid() && current == |history|
      ensures out == Rebased(history, snap, cell)
    {
      var here: nat := cell.at;
      if current <= snap {
        return S.At(here);
      }
      if current - snap > SLOTS {
        return S.Unanswerable;
      }
      for t := snap + 1 to current + 1
        invariant CellWalk(history, snap, |history|, cell, cell.at) == CellWalk(history, t - 1, |history|, cell, here)
      {
        assert SlotOk(t);
        var slot := slots[t % SLOTS];
        if slot.txn != t {
          return S.Unanswerable;
        }
        var fp := slot.footprint;
        if fp.kind.Empty? || cell.table % 64 !in fp.tables {
          continue;
        }
        if fp.keys.Some? && cell.key !in fp.keys.value {
          continue;
        }
        if cell.col % 64 !in fp.cols {
          continue;
        }
        if fp.range.None? {
          return S.Collision;
        }
        var (lo, hi) := fp.range.value;
        if here < hi && lo < here + cell.len {
          return S.Collision;
        }
        if lo <= here {
          if here + fp.delta < 0 {
            return S.Unanswerable;
          }
          here := here + fp.delta;
        }
      }
      return S.At(here);
    }

    /** The committer's test, reading only the ring. */
    method ConflictSet(snap: nat, current: nat, s: Surface) returns (conflict: bool, why: Verdict)
      requires Valid() && current == |history|
      ensures why == Judge(history, snap, s) && conflict == (why != Clear)
    {
      if current <= snap {
        return false, Clear;
      }
      if current - snap > SLOTS {
        return true, SnapshotTooOld;
      }
      for t := snap + 1 to current + 1
        invariant Walk(history, snap, s) == Walk(history, t - 1, s)
      {
        assert SlotOk(t);
        var slot := slots[t % SLOTS];
        if slot.txn != t {
          return true, RingGap;
        }
        if Hits(slot.footprint, s) {
          return true, Overlap;
        }
      }
      return false, Clear;
    }
  }
}
