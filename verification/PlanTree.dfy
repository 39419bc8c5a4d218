/**
 * The plan text turned into `EXPLAIN QUERY PLAN` rows: one row per non-blank
 * line, whose parent is read off the indentation by one pass with a stack.
 */
module PlanTree {
  import opened Text

  datatype Row = Row(id: nat, parent: nat, notused: nat, detail: string)

  predicate Blank(line: string) {
    forall c :: c in line ==> IsSpace(c)
  }

  /** The length of a character in UTF-8. */
  function Width(c: char): nat {
    if c < '\U{80}' then 1 else if c < '\U{800}' then 2 else if c < '\U{10000}' then 3 else 4
  }

  /** The bytes of white space a line starts with. */
  function Indent(line: string): nat {
    if line == "" || !IsSpace(line[0]) then 0 else Width(line[0]) + Indent(line[1..])
  }

  /** The lines that carry a plan step, in order. */
  function Steps(lines: seq<string>): seq<string> {
    if lines == [] then []
    else if Blank(lines[|lines| - 1]) then Steps(lines[..|lines| - 1])
    else Steps(lines[..|lines| - 1]) + [lines[|lines| - 1]]
  }

  /** `p` names the nearest step above step `k` that is indented less, or is 0. */
  ghost predicate IsParent(steps: seq<string>, k: nat, p: nat)
    requires k < |steps|
  {
    && p <= k
    && (p > 0 ==> Indent(steps[p - 1]) < Indent(steps[k]))
    && NoneBelow(steps, p, k, Indent(steps[k]))
  }

  /** No step from `lo` up to `hi` is indented less than `indent`. */
  ghost predicate NoneBelow(steps: seq<string>, lo: nat, hi: nat, indent: nat) {
    forall j :: lo <= j < hi && j < |steps| ==> Indent(steps[j]) >= indent
  }

  ghost predicate IsRow(steps: seq<string>, k: nat, row: Row)
    requires k < |steps|
  {
    row == Row(k + 1, row.parent, 0, TrimEnd(steps[k])) && IsParent(steps, k, row.parent)
  }

  ghost predicate IsPlan(steps: seq<string>, rows: seq<Row>) {
    |rows| == |steps| && forall k :: 0 <= k < |rows| ==> IsRow(steps, k, rows[k])
  }

  /** The id of the stack entry under entry `t`. */
  function Below(stack: seq<(nat, nat)>, t: nat): nat
    requires t <= |stack|
  {
    if t == 0 then 0 else stack[t - 1].1
  }

  ghost predicate IsEntry(steps: seq<string>, stack: seq<(nat, nat)>, t: nat)
    requires t < |stack|
  {
    && Below(stack, t) < stack[t].1 <= |steps|
    && stack[t].0 == Indent(steps[stack[t].1 - 1])
    && NoneBelow(steps, Below(stack, t), stack[t].1, stack[t].0)
  }

  /** The steps that may still become a parent, with nothing indented less between them. */
  ghost predicate Eligible(steps: seq<string>, stack: seq<(nat, nat)>) {
    forall t :: 0 <= t < |stack| ==> IsEntry(steps, stack, t)
  }

  lemma Pushed(steps: seq<string>, line: string, stack: seq<(nat, nat)>)
    requires Eligible(steps, stack) && Below(stack, |stack|) <= |steps|
    requires NoneBelow(steps, Below(stack, |stack|), |steps|, Indent(line))
    ensures Eligible(steps + [line], stack + [(Indent(line), |steps| + 1)])
  {
    hide Indent;
    var now := stack + [(Indent(line), |steps| + 1)];
    forall t | 0 <= t < |now|
      ensures IsEntry(steps + [line], now, t)
    {
      if t < |stack| {
        assert IsEntry(steps, stack, t);
        assert Below(now, t) == Below(stack, t);
      }
    }
  }

  lemma RowsKept(steps: seq<string>, line: string, rows: seq<Row>, row: Row)
    requires IsPlan(steps, rows) && IsRow(steps + [line], |steps|, row)
    ensures IsPlan(steps + [line], rows + [row])
  {
    hide Indent, TrimEnd;
    forall k | 0 <= k < |steps|
      ensures IsRow(steps + [line], k, (rows + [row])[k])
    {
      assert IsRow(steps, k, rows[k]);
    }
  }

  method Explain(lines: seq<string>) returns (rows: seq<Row>)
    ensures IsPlan(Steps(lines), rows)
  {
    hide Indent, TrimEnd, IsRow, IsEntry, Blank;
    var stack: seq<(nat, nat)> := [];
    rows := [];
    for i := 0 to |lines|
      invariant IsPlan(Steps(lines[..i]), rows)
      invariant Eligible(Steps(lines[..i]), stack)
      invariant Below(stack, |stack|) == |rows|
    {
      var line := lines[i];
      ghost var before := Steps(lines[..i]);
      assert lines[..i + 1][..i] == lines[..i];
      if !Blank(line) {
        var indent := Indent(line);
        while stack != [] && stack[|stack| - 1].0 >= indent
          invariant Eligible(before, stack)
          invariant Below(stack, |stack|) <= |rows|
          invariant NoneBelow(before, Below(stack, |stack|), |rows|, indent)
          decreases |stack|
        {
          Popped(before, stack, indent);
          stack := stack[..|stack| - 1];
        }
        var parent := if stack == [] then 0 else stack[|stack| - 1].1;
        var row := Row(|rows| + 1, parent, 0, TrimEnd(line));
        Parented(before, line, stack, row);
        RowsKept(before, line, rows, row);
        Pushed(before, line, stack);
        stack := stack + [(indent, |rows| + 1)];
        rows := rows + [row];
      }
    }
    assert lines[..|lines|] == lines;
  }

  /** An entry indented at least as much as the new line can be dropped from the stack. */
  lemma Popped(steps: seq<string>, stack: seq<(nat, nat)>, indent: nat)
    requires Eligible(steps, stack) && stack != [] && stack[|stack| - 1].0 >= indent
    requires NoneBelow(steps, Below(stack, |stack|), |steps|, indent)
    ensures var rest := stack[..|stack| - 1];
            && Eligible(steps, rest) && Below(rest, |rest|) <= |steps|
            && NoneBelow(steps, Below(rest, |rest|), |steps|, indent)
  {
    hide Indent;
    var rest := stack[..|stack| - 1];
    assert IsEntry(steps, stack, |rest|);
    forall t | 0 <= t < |rest|
      ensures IsEntry(steps, rest, t)
    {
      assert IsEntry(steps, stack, t) && Below(rest, t) == Below(stack, t);
    }
    assert Below(rest, |rest|) == Below(stack, |rest|);
  }

  /** The entry left on top is the nearest step indented less. */
  lemma Parented(steps: seq<string>, line: string, stack: seq<(nat, nat)>, row: Row)
    requires Eligible(steps, stack) && Below(stack, |stack|) <= |steps|
    requires stack == [] || stack[|stack| - 1].0 < Indent(line)
    requires NoneBelow(steps, Below(stack, |stack|), |steps|, Indent(line))
    requires row == Row(|steps| + 1, Below(stack, |stack|), 0, TrimEnd(line))
    ensures IsRow(steps + [line], |steps|, row)
  {
    hide Indent, TrimEnd;
    if stack != [] {
      assert IsEntry(steps, stack, |stack| - 1);
    }
  }

  /** The nearest less-indented step is unique, so the rows are determined by the text. */
  lemma PlanIsDetermined(steps: seq<string>, a: seq<Row>, b: seq<Row>)
    requires IsPlan(steps, a) && IsPlan(steps, b)
    ensures a == b
  {
    hide Indent, TrimEnd;
    forall k | 0 <= k < |steps|
      ensures a[k] == b[k]
    {
      assert IsRow(steps, k, a[k]) && IsRow(steps, k, b[k]);
    }
  }

  /** The path from a row to its root. */
  function Ancestors(rows: seq<Row>, k: nat): set<nat>
    requires k < |rows| && forall j :: 0 <= j < |rows| ==> rows[j].parent <= j
    decreases k
  {
    var p := rows[k].parent;
    if p == 0 then {} else {p} + Ancestors(rows, p - 1)
  }

  lemma {:induction false} AncestorsAreIds(rows: seq<Row>, k: nat, a: nat)
    requires k < |rows| && forall j :: 0 <= j < |rows| ==> rows[j].parent <= j
    requires a in Ancestors(rows, k)
    ensures 0 < a <= rows[k].parent
    decreases k
  {
    var p := rows[k].parent;
    if a != p {
      AncestorsAreIds(rows, p - 1, a);
    }
  }

  /** The rows are a forest: a parent comes before its child. */
  lemma PlanIsForest(steps: seq<string>, rows: seq<Row>)
    requires IsPlan(steps, rows)
    ensures forall k :: 0 <= k < |rows| ==> rows[k].parent < rows[k].id == k + 1
  {
    hide Indent, TrimEnd;
    forall k | 0 <= k < |rows|
      ensures rows[k].parent < rows[k].id == k + 1
    {
      assert IsRow(steps, k, rows[k]);
    }
  }

  /** Steps between a parent and its child hang below that parent. */
  lemma BetweenParentAndChild(steps: seq<string>, rows: seq<Row>, j: nat, k: nat)
    requires IsPlan(steps, rows) && k < |rows| && rows[k].parent <= j < k
    ensures rows[j].parent >= rows[k].parent
  {
    hide Indent, TrimEnd;
    assert IsRow(steps, k, rows[k]) && IsRow(steps, j, rows[j]);
  }

  /**
   * The forest is listed in pre-order: every row between a step and one of its
   * descendants is a descendant of that step too.
   */
  lemma {:induction false} SubtreesAreContiguous(steps: seq<string>, rows: seq<Row>, a: nat, j: nat, k: nat)
    requires IsPlan(steps, rows) && k < |rows|
    requires forall i :: 0 <= i < |rows| ==> rows[i].parent <= i
    requires a in Ancestors(rows, k) && a <= j <= k
    ensures a in Ancestors(rows, j)
    decreases k, j
  {
    hide IsPlan;
    var p := rows[k].parent;
    AncestorsAreIds(rows, k, a);
    if j < p {
      SubtreesAreContiguous(steps, rows, a, j, p - 1);
    } else if j < k {
      BetweenParentAndChild(steps, rows, j, k);
      var q := rows[j].parent;
      if q != a {
        SubtreesAreContiguous(steps, rows, a, q - 1, k);
      }
    }
  }
}
