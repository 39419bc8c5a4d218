/** The document body as a fixed array of per-editor counter slots.
    Characters stand for bytes: every body the drivers build is ASCII. */
module Slots {
  import opened Options
  import opened Counting
  import opened Text

  const BODY: nat := 1024
  const SLOT: nat := 16
  const SLOTS: nat := BODY / SLOT
  const COUNTER_LIMIT: nat := 1_000_000_000_000_000

  // ---- decimal text ----

  function Pow10(k: nat): (p: nat)
    ensures p >= 1
  {
    if k == 0 then 1 else 10 * Pow10(k - 1)
  }

  /** The low `k` decimal digits of `n`, most significant first. */
  function Pad(n: nat, k: nat): (s: string)
    ensures |s| == k && forall i :: 0 <= i < k ==> IsDigit(s[i])
  {
    if k == 0 then "" else Pad(n / 10, k - 1) + [Digit(n % 10)]
  }

  lemma {:induction false} DecimalOfPad(n: nat, k: nat)
    requires n < Pow10(k)
    ensures Decimal(Pad(n, k)) == n
  {
    if k > 0 {
      var s := Pad(n, k);
      assert s[..k - 1] == Pad(n / 10, k - 1);
      DecimalOfPad(n / 10, k - 1);
    }
  }

  // ---- trim and parse ----

  /** An unsigned number: an optional `+`, then at least one digit and nothing else. */
  function ParseNat(s: string): Option<nat> {
    var d := if s != "" && s[0] == '+' then s[1..] else s;
    if d != "" && AllDigits(d) then Some(Decimal(d)) else None
  }

  // ---- the slot codec ----

  function Offset(w: nat): (at: nat)
    ensures at + SLOT <= BODY
  {
    (w % SLOTS) * SLOT
  }

  /** The body cut or padded with dots to its fixed length. */
  function Resized(body: string): (r: string)
    ensures |r| == BODY
  {
    if |body| >= BODY then body[..BODY] else body + seq(BODY - |body|, _ => '.')
  }

  function Mark(n: nat): (m: string)
    ensures |m| == SLOT
  {
    Pad(n, SLOT - 1) + " "
  }

  function Spliced(body: string, w: nat, n: nat): (r: string)
    ensures |r| == BODY
  {
    var b, at := Resized(body), Offset(w);
    b[..at] + Mark(n) + b[at + SLOT..]
  }

  function ReadSlot(body: string, w: nat): Option<nat> {
    var at := Offset(w);
    if |body| < at + SLOT then None
    else ParseNat(TrimEnd(TrimStart(body[at..at + SLOT])))
  }

  function Blank(): (b: string)
    ensures |b| == BODY && forall i :: 0 <= i < BODY ==> b[i] == '.'
  {
    seq(BODY, _ => '.')
  }

  /** Editors whose slot does not hold the counter of their last action. */
  function LostIn(body: string, workers: nat, actions: nat): nat
    requires actions >= 1
  {
    Count(workers, (w: nat) => ReadSlot(body, w) != Some(actions - 1))
  }

  /** Overwrite one slot of the buffer in place; at a counter too wide for the slot
      the copy stops on a length mismatch. */
  method SpliceSlot(body: string, w: nat, n: nat) returns (r: string)
    requires n < COUNTER_LIMIT
    ensures r == Spliced(body, w, n)
    ensures ReadSlot(r, w) == Some(n)
  {
    var b := new char[BODY];
    var src := Resized(body);
    for i := 0 to BODY
      invariant b[..i] == src[..i]
    {
      b[i] := src[i];
    }
    var at, mark := Offset(w), Mark(n);
    for i := 0 to SLOT
      invariant b[..at] == src[..at]
      invariant b[at..at + i] == mark[..i]
      invariant b[at + SLOT..] == src[at + SLOT..]
    {
      b[at + i] := mark[i];
    }
    r := b[..];
    assert r == r[..at] + r[at..at + SLOT] + r[at + SLOT..];
    ReadAfterSplice(body, w, w, n);
  }

  /** A slot that was just written reads back as the counter written to it. */
  lemma ReadAfterSplice(body: string, w: nat, v: nat, n: nat)
    requires n < COUNTER_LIMIT && w % SLOTS == v % SLOTS
    ensures ReadSlot(Spliced(body, w, n), v) == Some(n)
  {
    var r, at := Spliced(body, w, n), Offset(w);
    assert r[at..at + SLOT] == Mark(n);
    var digits := Pad(n, SLOT - 1);
    assert TrimStart(Mark(n)) == Mark(n);
    assert Mark(n)[..SLOT - 1] == digits;
    assert TrimEnd(Mark(n)) == TrimEnd(digits) == digits;
    Pow10Fifteen();
    DecimalOfPad(n, SLOT - 1);
  }

  lemma Pow10Fifteen()
    ensures Pow10(SLOT - 1) == COUNTER_LIMIT
  {
    assert Pow10(4) == 10_000;
    assert Pow10(8) == 100_000_000;
    assert Pow10(12) == 1_000_000_000_000;
    assert Pow10(15) == 1000 * Pow10(12);
  }

  lemma SlotsApart(i: nat, j: nat)
    requires i != j && i < SLOTS && j < SLOTS
    ensures j * SLOT + SLOT <= i * SLOT || i * SLOT + SLOT <= j * SLOT
  {
  }

  /** Writing one slot leaves every other slot of a full-length body alone. */
  lemma ReadOtherAfterSplice(body: string, w: nat, v: nat, n: nat)
    requires |body| == BODY && w % SLOTS != v % SLOTS
    ensures ReadSlot(Spliced(body, w, n), v) == ReadSlot(body, v)
  {
    var r, at, av := Spliced(body, w, n), Offset(w), Offset(v);
    SlotsApart(w % SLOTS, v % SLOTS);
    assert r[av..av + SLOT] == body[av..av + SLOT];
  }

  lemma BlankReadsAsMissing(w: nat)
    ensures ReadSlot(Blank(), w) == None
  {
    var s := Blank()[Offset(w)..Offset(w) + SLOT];
    assert s[0] == '.' && s[SLOT - 1] == '.';
    assert TrimEnd(TrimStart(s)) == s;
    assert !IsDigit(s[0]);
  }

  lemma LostInZero(body: string, workers: nat, actions: nat)
    requires actions >= 1
    ensures LostIn(body, workers, actions) == 0
       <==> forall w :: 0 <= w < workers ==> ReadSlot(body, w) == Some(actions - 1)
  {
    var lost := (w: nat) => ReadSlot(body, w) != Some(actions - 1);
    CountZero(workers, lost);
    if LostIn(body, workers, actions) == 0 {
      forall w | 0 <= w < workers ensures ReadSlot(body, w) == Some(actions - 1) {
        assert !lost(w);
      }
    } else {
      var w :| 0 <= w < workers && lost(w);
    }
  }
}
