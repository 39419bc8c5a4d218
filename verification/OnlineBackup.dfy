/**
 * An online backup: an image captured in one instant, a meter that paces the report,
 * a restart when the source has committed since, and an installation at the end.
 *
 * A database is the list of the contents it has had, one per commit; contents are
 * opaque numbers. The commit counter of the source is the index of the last one.
 */
module OnlineBackup {

  datatype Code = OK | DONE

  /** A captured copy: what was copied, at which commit, and the counter read afterwards. */
  datatype Image = Image(content: int, copied: nat, stamp: nat, pages: nat, done: nat)

  datatype State = State(src: seq<int>, main: bool, dest: int, image: Image, installed: bool)

  function Current(src: seq<int>): int
    requires src != []
  {
    src[|src| - 1]
  }

  /**
   * Capture: the file is copied under the writer lock, and the commit counter is read
   * after the lock is released, when `between` may already have been committed.
   */
  function Captured(src: seq<int>, between: seq<int>, pages: nat): Image
    requires src != []
  {
    Image(Current(src), |src| - 1, |src| + |between| - 1, pages, 0)
  }

  function Started(src: seq<int>, main: bool, dest: int, between: seq<int>, pages: nat): State
    requires src != []
  {
    State(src + between, main, dest, Captured(src, between, pages), false)
  }

  /** Count off up to `n` pages, or all that are left when `n` is negative. */
  function Advanced(image: Image, n: int): Image
    requires image.done <= image.pages
  {
    var left := image.pages - image.done;
    image.(done := image.done + if 0 <= n < left then n else left)
  }

  /** A commit the image has not seen, with no transaction open on the source connection. */
  predicate Restarts(s: State, busy: bool)
    requires s.src != []
  {
    s.main && !busy && s.image.stamp != |s.src| - 1
  }

  /** The state a step counts pages in; a restart captures again and rewinds the meter. */
  function Refreshed(s: State, busy: bool, between: seq<int>, pages: nat): State
    requires s.src != []
  {
    if Restarts(s, busy) then s.(src := s.src + between, image := Captured(s.src, between, pages)) else s
  }

  function Stepped(s: State, n: int, busy: bool, between: seq<int>, pages: nat): (State, Code)
    requires Valid(s) && pages >= 1
  {
    if s.installed then (s, DONE)
    else
      var t := Refreshed(s, busy, between, pages);
      var image := Advanced(t.image, n);
      if image.done < image.pages then (t.(image := image), OK)
      else (t.(image := image, dest := image.content, installed := true), DONE)
  }

  /** The image is a past content of the source, stamped no earlier than it was copied. */
  predicate Valid(s: State) {
    && s.src != []
    && s.image.copied <= s.image.stamp < |s.src|
    && s.image.content == s.src[s.image.copied]
    && s.image.done <= s.image.pages
    && (s.installed || s.image.done < s.image.pages)
  }

  // ---- the handle ---------------------------------------------------------

  /** The handle's own fields, with the source's commits and the destination beside them. */
  class Handle {
    const main: bool
    var image: Image
    var installed: bool
    var pageCount: nat
    var remaining: nat
    var src: seq<int>
    var dest: int

    ghost predicate Reports()
      reads this
    {
      pageCount == image.pages && remaining == image.pages - image.done
    }

    ghost function View(): State
      reads this
    {
      State(src, main, dest, image, installed)
    }

    constructor (src: seq<int>, main: bool, dest: int, between: seq<int>, pages: nat)
      requires src != [] && pages >= 1
      ensures View() == Started(src, main, dest, between, pages) && Valid(View()) && Reports()
    {
      this.src, this.main, this.dest, installed := src + between, main, dest, false;
      image := Image(src[|src| - 1], |src| - 1, |src| + |between| - 1, pages, 0);
      pageCount, remaining := pages, pages;
    }

    method Commit(content: int)
      requires Valid(View())
      modifies this`src
      ensures View() == old(View()).(src := old(src) + [content]) && Valid(View())
    {
      src := src + [content];
    }

    method Step(n: int, busy: bool, between: seq<int>, pages: nat) returns (code: Code)
      requires Valid(View()) && Reports() && pages >= 1
      modifies this
      ensures (View(), code) == Stepped(old(View()), n, busy, between, pages)
      ensures Valid(View()) && Reports()
    {
      if installed {
        return DONE;
      }
      if main && !busy && image.stamp != |src| - 1 {
        image := Image(src[|src| - 1], |src| - 1, |src| + |between| - 1, pages, 0);
        src := src + between;
        pageCount := image.pages;
      }
      var count := if n < 0 || n > image.pages - image.done then image.pages - image.done else n;
      image := image.(done := image.done + count);
      remaining := image.pages - image.done;
      if image.done < image.pages {
        return OK;
      }
      dest := image.content;
      installed := true;
      return DONE;
    }
  }

  // ---- what a step does ---------------------------------------------------

  /** Commits that leave the content as it was copied. */
  predicate EndsAs(content: int, between: seq<int>) {
    between == [] || between[|between| - 1] == content
  }

  /**
   * With a `main` source and no open transaction, a step that answers DONE leaves the
   * destination equal to the source exactly when the capture it installs missed no
   * change: for a capture made in this step, the commits between its copy and its stamp
   * end in the content that was copied; for an earlier one, the same of its own.
   */
  lemma DoneIsCurrentIff(s: State, n: int, between: seq<int>, pages: nat)
    requires Valid(s) && pages >= 1 && s.main && !s.installed && Stepped(s, n, false, between, pages).1 == DONE
    ensures var t := Stepped(s, n, false, between, pages).0;
            t.dest == Current(t.src) <==>
            if s.image.stamp != |s.src| - 1 then EndsAs(Current(s.src), between)
            else s.src[s.image.copied] == s.src[s.image.stamp]
  {
  }

  /** Two contents, one committed between the copy and the stamp: DONE, and the commit is missing. */
  lemma DoneMayMissACommit()
    ensures var s := Started([1], true, 0, [2], 1);
            var r := Stepped(s, -1, false, [], 1);
            Valid(s) && r.1 == DONE && r.0.dest == 1 && Current(r.0.src) == 2
  {
    assert [1] + [2] == [1, 2];
  }

  // ---- runs ---------------------------------------------------------------

  /** Any commits and any steps, with any commits in the gap of any capture. */
  datatype Action = Commit(content: int) | Step(n: int, busy: bool, between: seq<int>, pages: nat)

  predicate Possible(actions: seq<Action>) {
    forall i :: 0 <= i < |actions| ==> (actions[i].Step? ==> actions[i].pages >= 1)
  }

  function After(s: State, a: Action): (t: State)
    requires Valid(s) && (a.Step? ==> a.pages >= 1)
    ensures Valid(t) && t.main == s.main
  {
    match a
    case Commit(content) => s.(src := s.src + [content])
    case Step(n, busy, between, pages) => Stepped(s, n, busy, between, pages).0
  }

  function Ran(s: State, actions: seq<Action>): (t: State)
    requires Valid(s) && Possible(actions)
    ensures Valid(t) && t.main == s.main
    decreases |actions|
  {
    if actions == [] then s else Ran(After(s, actions[0]), actions[1..])
  }

  /** The gap of the capture a step works on: its own if it restarts, else the one before. */
  function GapAfter(s: State, gap: seq<int>, a: Action): seq<int>
    requires s.src != []
  {
    if a.Step? && !s.installed && Restarts(s, a.busy) then a.between else gap
  }

  /** The gap of the capture that is current after a run; the others were thrown away. */
  function LastGap(s: State, gap: seq<int>, actions: seq<Action>): seq<int>
    requires Valid(s) && Possible(actions)
    decreases |actions|
  {
    if actions == [] then gap
    else LastGap(After(s, actions[0]), GapAfter(s, gap, actions[0]), actions[1..])
  }

  /** The gap is what the source committed from the copy to the stamp. */
  ghost predicate IsGap(s: State, gap: seq<int>)
    requires Valid(s)
  {
    gap == s.src[s.image.copied + 1..s.image.stamp + 1]
  }

  lemma GapStep(s: State, gap: seq<int>, a: Action)
    requires Valid(s) && IsGap(s, gap) && (a.Step? ==> a.pages >= 1)
    ensures IsGap(After(s, a), GapAfter(s, gap, a))
  {
    var t := After(s, a);
    if a.Step? && !s.installed && Restarts(s, a.busy) {
      assert t.src == s.src + a.between;
      assert t.src[|s.src|..|s.src| + |a.between|] == a.between;
    } else if a.Commit? {
      var lo, hi := s.image.copied + 1, s.image.stamp + 1;
      assert t.src[lo..hi] == s.src[lo..hi];
    } else {
      assert t.src == s.src;
    }
  }

  lemma {:induction false} GapOfRun(s: State, gap: seq<int>, actions: seq<Action>)
    requires Valid(s) && IsGap(s, gap) && Possible(actions)
    ensures IsGap(Ran(s, actions), LastGap(s, gap, actions))
    decreases |actions|
  {
    if actions != [] {
      GapStep(s, gap, actions[0]);
      GapOfRun(After(s, actions[0]), GapAfter(s, gap, actions[0]), actions[1..]);
    }
  }

  lemma GapDecides(s: State, gap: seq<int>)
    requires Valid(s) && IsGap(s, gap)
    ensures s.src[s.image.copied] == s.src[s.image.stamp] <==> EndsAs(s.image.content, gap)
  {
    if gap != [] {
      assert gap[|gap| - 1] == s.src[s.image.stamp];
    }
  }

  /**
   * Over every run of commits and steps, with any commits in any gap, a step that answers
   * DONE leaves the destination equal to the source exactly when the commits in the gap of
   * the capture it installs end in what was copied. The gaps of captures that a restart
   * threw away do not matter.
   */
  lemma DoneIsCurrentOverRuns(src: seq<int>, dest: int, first: seq<int>, pages: nat, actions: seq<Action>,
                              n: int, between: seq<int>, again: nat)
    requires src != [] && pages >= 1 && again >= 1 && Possible(actions)
    ensures var s := Started(src, true, dest, first, pages);
            && Valid(s)
            && var t := Ran(s, actions);
               var r := Stepped(t, n, false, between, again);
               var gap := if Restarts(t, false) then between else LastGap(s, first, actions);
               var copied := if Restarts(t, false) then Current(t.src) else t.image.content;
               !t.installed && r.1 == DONE ==> (r.0.dest == Current(r.0.src) <==> EndsAs(copied, gap))
  {
    var s := Started(src, true, dest, first, pages);
    assert IsGap(s, first);
    GapOfRun(s, first, actions);
    hide Ran, LastGap, Possible;
    var t := Ran(s, actions);
    GapDecides(t, LastGap(s, first, actions));
    if !t.installed && Stepped(t, n, false, between, again).1 == DONE {
      DoneIsCurrentIff(t, n, between, again);
    }
  }

  /** Over every run the destination is what it was until DONE, and from then on what was installed. */
  lemma {:induction false} DestinationOverRuns(s: State, actions: seq<Action>)
    requires Valid(s) && Possible(actions)
    ensures var t := Ran(s, actions);
            && (!t.installed ==> !s.installed && t.dest == s.dest)
            && (s.installed ==> t.dest == s.dest)
            && (!s.installed && t.installed ==> t.dest == t.image.content)
    decreases |actions|
  {
    if actions != [] {
      var t := After(s, actions[0]);
      DestinationOverRuns(t, actions[1..]);
      if t.installed {
        InstalledImageStays(t, actions[1..]);
      }
    }
  }

  lemma {:induction false} InstalledImageStays(s: State, actions: seq<Action>)
    requires Valid(s) && Possible(actions) && s.installed
    ensures Ran(s, actions).image == s.image && Ran(s, actions).installed
    decreases |actions|
  {
    if actions != [] {
      InstalledImageStays(After(s, actions[0]), actions[1..]);
    }
  }

  /** A source other than `main` is never captured again: DONE installs what was there at the start. */
  lemma {:induction false} OtherSourcesKeepTheirImage(s: State, actions: seq<Action>)
    requires Valid(s) && !s.main && (s.installed ==> s.dest == s.image.content) && Possible(actions)
    ensures var t := Ran(s, actions); t.image.content == s.image.content && (t.installed ==> t.dest == s.image.content)
    decreases |actions|
  {
    if actions != [] {
      OtherSourcesKeepTheirImage(After(s, actions[0]), actions[1..]);
    }
  }

  // ---- how many steps -----------------------------------------------------

  /** The pages the next step finds left. */
  function Left(s: State, pages: nat): nat
    requires Valid(s) && !s.installed
  {
    if Restarts(s, false) then pages else s.image.pages - s.image.done
  }

  /** `k` steps of `n` pages each, the source idle. */
  function Steps(s: State, n: int, pages: nat, k: nat): (t: State)
    requires Valid(s) && pages >= 1
    ensures Valid(t)
    decreases k
  {
    if k == 0 then s else Steps(Stepped(s, n, false, [], pages).0, n, pages, k - 1)
  }

  function Ceil(a: nat, n: nat): nat
    requires n > 0
  {
    (a + n - 1) / n
  }

  lemma CeilStep(a: nat, n: nat)
    requires 0 < n < a
    ensures Ceil(a, n) == Ceil(a - n, n) + 1 && Ceil(a, n) > 1
  {
    assert (a + n - 1) == (a - 1) + n;
    assert (a - 1 + n) / n == (a - 1) / n + 1 by { DivPlus(a - 1, n); }
    assert (a - n + n - 1) == a - 1;
    assert (a - 1) / n >= 1 by { DivAtLeastOne(a - 1, n); }
  }

  lemma DivPlus(a: nat, n: nat)
    requires n > 0
    ensures (a + n) / n == a / n + 1
  {
    var q, r := a / n, a % n;
    assert a + n == n * (q + 1) + r;
    DivUnique(a + n, n, q + 1, r);
  }

  lemma DivUnique(a: nat, n: nat, q: nat, r: nat)
    requires n > 0 && a == n * q + r && r < n
    ensures a / n == q
  {
    var d := a / n - q;
    assert a == n * (a / n) + a % n;
    assert n * d == r - a % n;
    assert d > 0 ==> n * d >= n;
    assert d < 0 ==> n * d <= 0 - n;
  }

  lemma DivAtLeastOne(a: nat, n: nat)
    requires 0 < n <= a
    ensures a / n >= 1
  {
  }

  /** With an idle source, steps of `n` pages answer DONE at the ceil(left / n)-th and not before. */
  lemma {:induction false} StepsNeeded(s: State, n: nat, pages: nat, k: nat)
    requires Valid(s) && !s.installed && n > 0 && pages >= 1
    ensures Steps(s, n, pages, k).installed <==> k >= Ceil(Left(s, pages), n)
    decreases k
  {
    var left := Left(s, pages);
    var t := Stepped(s, n, false, [], pages).0;
    assert s.src + [] == s.src;
    assert left >= 1;
    if k == 0 {
      assert Ceil(left, n) >= 1 by { DivAtLeastOne(left + n - 1, n); }
    } else if n < left {
      CeilStep(left, n);
      assert !t.installed && Left(t, pages) == left - n;
      StepsNeeded(t, n, pages, k - 1);
    } else {
      assert t.installed;
      InstalledStays(t, n, pages, k - 1);
      assert Ceil(left, n) == 1 by { DivUnique(left + n - 1, n, 1, left - 1); }
    }
  }

  lemma {:induction false} InstalledStays(s: State, n: int, pages: nat, k: nat)
    requires Valid(s) && s.installed && pages >= 1
    ensures Steps(s, n, pages, k) == s
    decreases k
  {
    if k > 0 {
      InstalledStays(s, n, pages, k - 1);
    }
  }
}
