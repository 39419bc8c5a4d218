/** Column names made distinct by numbering repeats. */
module CsvColumns {
  import opened Text

  function Times(names: seq<string>, n: string): nat {
    if names == [] then 0
    else Times(names[..|names| - 1], n) + (if names[|names| - 1] == n then 1 else 0)
  }

  /** Which occurrence of its name the column at `i` is, counting from 1. */
  function Occurrence(names: seq<string>, i: nat): nat
    requires i < |names|
  {
    Times(names[..i], names[i]) + 1
  }

  function Numbered(n: string, k: nat): string {
    if k <= 1 then n else n + "_" + Shown(k)
  }

  /** The first occurrence keeps its name, the later ones get their number. */
  ghost predicate IsNumbering(names: seq<string>, out: seq<string>) {
    |out| == |names| && forall i :: 0 <= i < |out| ==> out[i] == Numbered(names[i], Occurrence(names, i))
  }

  /** The map counts every name of the list. */
  ghost predicate Tallies(seen: map<string, nat>, names: seq<string>) {
    forall n :: (if n in seen then seen[n] else 0) == Times(names, n)
  }

  lemma NothingSeen()
    ensures Tallies(map[], [])
  {
  }

  lemma Seen(seen: map<string, nat>, names: seq<string>, i: nat)
    requires i < |names| && Tallies(seen, names[..i])
    ensures Tallies(seen[names[i] := Times(names[..i], names[i]) + 1], names[..i + 1])
    ensures (if names[i] in seen then seen[names[i]] else 0) == Times(names[..i], names[i])
  {
    assert names[..i + 1][..i] == names[..i];
  }

  method Unique(names: seq<string>) returns (out: seq<string>)
    ensures IsNumbering(names, out)
  {
    hide Shown, Times;
    var seen: map<string, nat> := map[];
    out := [];
    NothingSeen();
    for i := 0 to |names|
      invariant |out| == i
      invariant Tallies(seen, names[..i])
      invariant forall j :: 0 <= j < i ==> out[j] == Numbered(names[j], Occurrence(names, j))
    {
      var n := names[i];
      var k := if n in seen then seen[n] else 0;
      Seen(seen, names, i);
      seen := seen[n := k + 1];
      out := out + [if k == 0 then n else n + "_" + Shown(k + 1)];
    }
  }

  lemma {:induction false} TimesGrow(names: seq<string>, i: nat, j: nat, n: string)
    requires i <= j <= |names|
    ensures Times(names[..i], n) <= Times(names[..j], n)
    ensures forall k :: i <= k < j && names[k] == n ==> Times(names[..i], n) < Times(names[..j], n)
  {
    if i < j {
      assert names[..j][..j - 1] == names[..j - 1];
      TimesGrow(names, i, j - 1, n);
    }
  }

  /** A name that occurs has a first occurrence. */
  lemma {:induction false} FirstOccurrence(names: seq<string>, n: string) returns (i: nat)
    requires n in names
    ensures i < |names| && names[i] == n && Occurrence(names, i) == 1
  {
    var last := |names| - 1;
    if n in names[..last] {
      i := FirstOccurrence(names[..last], n);
      assert names[..last][..i] == names[..i];
    } else {
      i := last;
      NeverCounted(names[..last], n);
    }
  }

  lemma {:induction false} NeverCounted(names: seq<string>, n: string)
    requires n !in names
    ensures Times(names, n) == 0
  {
    if names != [] {
      NeverCounted(names[..|names| - 1], n);
    }
  }

  /** A numbered name can be taken apart again. */
  lemma NumberedApart(n: string, k: nat, m: string, l: nat)
    requires k >= 2 && l >= 2 && Numbered(n, k) == Numbered(m, l)
    ensures n == m && k == l
  {
    var a, b := n + "_" + Shown(k), m + "_" + Shown(l);
    assert a[|n|] == '_' && b[|m|] == '_';
    assert |n| == |m|;
    assert n == a[..|n|] && m == b[..|m|];
    assert Shown(k) == a[|n| + 1..] && Shown(l) == b[|m| + 1..];
  }

  /** No column is called what a repeat of another column would be called. */
  ghost predicate NoNameTaken(names: seq<string>) {
    forall i :: 0 <= i < |names| && Occurrence(names, i) >= 2 ==> Numbered(names[i], Occurrence(names, i)) !in names
  }

  ghost predicate Distinct(out: seq<string>) {
    forall i, j :: 0 <= i < j < |out| ==> out[i] != out[j]
  }

  lemma SameColumn(names: seq<string>, i: nat, j: nat)
    requires i < j < |names| && names[i] == names[j]
    ensures Occurrence(names, i) < Occurrence(names, j)
  {
    TimesGrow(names, i, j, names[i]);
  }

  /** The numbering makes names distinct exactly when no repeat's name is already taken. */
  lemma DistinctIff(names: seq<string>, out: seq<string>)
    requires IsNumbering(names, out)
    ensures Distinct(out) <==> NoNameTaken(names)
  {
    hide Numbered, Occurrence;
    if NoNameTaken(names) {
      forall i, j | 0 <= i < j < |out|
        ensures out[i] != out[j]
      {
        if out[i] == out[j] {
          Collision(names, i, j);
        }
      }
    }
    if !NoNameTaken(names) {
      var i: nat :| i < |names| && Occurrence(names, i) >= 2 && Numbered(names[i], Occurrence(names, i)) in names;
      var j := FirstOccurrence(names, out[i]);
      FirstKeepsName(out[i]);
      assert out[j] == out[i] && i != j;
    }
  }

  lemma FirstKeepsName(n: string)
    ensures Numbered(n, 1) == n
  {
  }

  lemma Collision(names: seq<string>, i: nat, j: nat)
    requires i < j < |names|
    requires Numbered(names[i], Occurrence(names, i)) == Numbered(names[j], Occurrence(names, j))
    ensures !NoNameTaken(names)
  {
    hide Times, Shown;
    var k, l := Occurrence(names, i), Occurrence(names, j);
    if k >= 2 && l >= 2 {
      NumberedApart(names[i], k, names[j], l);
      SameColumn(names, i, j);
    } else if k >= 2 {
      assert names[j] in names;
    } else if l >= 2 {
      assert names[i] in names;
    } else {
      SameColumn(names, i, j);
    }
  }

  /** Two columns called `a` and one called `a_2` come out with a name repeated. */
  lemma RepeatMayClash(out: seq<string>)
    requires IsNumbering(["a", "a", "a_2"], out)
    ensures out[1] == out[2] == "a_2"
  {
    var names := ["a", "a", "a_2"];
    assert names[..1] == ["a"] && names[..2] == ["a", "a"];
    assert Times(names[..1], "a") == 1;
    NeverCounted(names[..2], "a_2");
    assert Shown(2) == "2";
  }
}
