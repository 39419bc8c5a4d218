/**
 * Application-defined functions and collations: the connection's own lists, the
 * engine's registries that can reach the application data, and the destructors
 * that have run. Every registration call is identified by a number of its own.
 */
module Callbacks {
  import opened Options

  /** One registration; a collation has no argument count, which is written 0. */
  datatype Entry = Entry(id: nat, name: string, nArg: int, aggregate: bool, destroys: bool)

  type Key = (string, int)

  datatype Host = Host(
    fns: seq<Entry>,
    colls: seq<Entry>,
    scalars: map<Key, nat>,
    aggregates: map<Key, nat>,
    collations: map<Key, nat>,
    destroyed: seq<nat>)

  datatype Code = OK | MISUSE

  const EMPTY := Host([], [], map[], map[], map[], [])

  function LowerChar(c: char): char {
    if 'A' <= c <= 'Z' then c - 'A' + 'a' else c
  }

  function Lower(s: string): string {
    if s == "" then "" else [LowerChar(s[0])] + Lower(s[1..])
  }

  // ---- operations ---------------------------------------------------------

  function Destroyed(h: Host, id: nat, destroys: bool): Host {
    if destroys then h.(destroyed := h.destroyed + [id]) else h
  }

  function KeyOf(e: Entry): Key {
    (e.name, e.nArg)
  }

  /** Where the entry with a key is, or the length of the list. */
  function Position(entries: seq<Entry>, key: Key): (i: nat)
    ensures i <= |entries|
    ensures i < |entries| ==> KeyOf(entries[i]) == key
    ensures forall j :: 0 <= j < i ==> KeyOf(entries[j]) != key
  {
    if entries == [] then 0
    else
      var i := Position(entries[..|entries| - 1], key);
      if i < |entries| - 1 || KeyOf(entries[|entries| - 1]) == key then i else |entries|
  }

  function Without(entries: seq<Entry>, i: nat): seq<Entry> {
    if i < |entries| then entries[..i] + entries[i + 1..] else entries
  }

  /** The earlier registration is taken out of the list and out of its registry. */
  function FnTaken(h: Host, key: Key): Host {
    var i := Position(h.fns, key);
    if i == |h.fns| then h
    else if h.fns[i].aggregate then h.(fns := Without(h.fns, i), aggregates := h.aggregates - {key})
    else h.(fns := Without(h.fns, i), scalars := h.scalars - {key})
  }

  /** Only then does its destructor run. */
  function FnDropped(h: Host, key: Key): Host {
    var i := Position(h.fns, key);
    if i == |h.fns| then h else Destroyed(FnTaken(h, key), h.fns[i].id, h.fns[i].destroys)
  }

  function FnDeleted(h: Host, id: nat, key: Key, destroys: bool): Host {
    var d := FnDropped(h, key);
    Destroyed(d.(scalars := d.scalars - {key}, aggregates := d.aggregates - {key}), id, destroys)
  }

  function FnAdded(h: Host, fn: Entry): Host {
    var d := FnDropped(h, KeyOf(fn));
    d.(fns := d.fns + [fn],
       scalars := if fn.aggregate then d.scalars else d.scalars[KeyOf(fn) := fn.id],
       aggregates := if fn.aggregate then d.aggregates[KeyOf(fn) := fn.id] else d.aggregates)
  }

  /** The callbacks a call supplies: `func` alone, or `step` and `final` together, or none. */
  function FunctionCreated(h: Host, id: nat, name: Option<string>, nArg: int,
                           func: bool, step: bool, final: bool, destroys: bool): (Host, Code)
  {
    if name.None? || !(-1 <= nArg <= 127) || step != final || (step && func) then (Destroyed(h, id, destroys), MISUSE)
    else if !func && !step then (FnDeleted(h, id, (Lower(name.value), nArg), destroys), OK)
    else (FnAdded(h, Entry(id, Lower(name.value), nArg, step, destroys)), OK)
  }

  function WindowCreated(h: Host, id: nat, name: Option<string>, nArg: int,
                         step: bool, final: bool, value: bool, inverse: bool, destroys: bool): (Host, Code)
  {
    var deleting := !step && !final && !value && !inverse;
    if name.None? || !(-1 <= nArg <= 127) || (!deleting && !(step && final)) then (Destroyed(h, id, destroys), MISUSE)
    else if deleting then (FnDeleted(h, id, (Lower(name.value), nArg), destroys), OK)
    else (FnAdded(h, Entry(id, Lower(name.value), nArg, true, destroys)), OK)
  }

  /** The new collation takes the place of an earlier one, or the earlier one is taken away. */
  function CollTaken(h: Host, id: nat, name: string, compare: bool, destroys: bool): Host {
    var key := (name, 0);
    var rest := Without(h.colls, Position(h.colls, key));
    if compare then
      h.(colls := rest + [Entry(id, name, 0, false, destroys)], collations := h.collations[key := id])
    else h.(colls := rest, collations := h.collations - {key})
  }

  /** A refused collation never runs its destructor; an earlier one is destroyed once it is replaced. */
  function CollationCreated(h: Host, id: nat, name: Option<string>, compare: bool, destroys: bool): (Host, Code) {
    if name.None? then (h, MISUSE)
    else
      var i := Position(h.colls, (name.value, 0));
      var g := CollTaken(h, id, name.value, compare, destroys);
      var k := if i == |h.colls| then g else Destroyed(g, h.colls[i].id, h.colls[i].destroys);
      (if compare then k else Destroyed(k, id, destroys), OK)
  }

  /** The destructors of the entries of a list. */
  function OwedBy(entries: seq<Entry>): seq<nat> {
    if entries == [] then []
    else OwedBy(entries[..|entries| - 1]) + (if entries[|entries| - 1].destroys then [entries[|entries| - 1].id] else [])
  }

  /** Freeing the connection runs every destructor left, functions first; the engine goes with it. */
  function Closed(h: Host): Host {
    Host([], [], map[], map[], map[], h.destroyed + OwedBy(h.fns) + OwedBy(h.colls))
  }

  // ---- registries follow the lists ----------------------------------------

  /** The registry of the entries of one kind. */
  function Registry(entries: seq<Entry>, aggregate: bool): map<Key, nat> {
    if entries == [] then map[]
    else
      var last, rest := entries[|entries| - 1], Registry(entries[..|entries| - 1], aggregate);
      if last.aggregate == aggregate then rest[KeyOf(last) := last.id] else rest
  }

  /** A reopened database starts empty and every registration is installed again. */
  function Reinstalled(h: Host): Host {
    h.(scalars := Registry(h.fns, false), aggregates := Registry(h.fns, true), collations := Registry(h.colls, false))
  }

  ghost predicate UniqueKeys(entries: seq<Entry>) {
    forall i, j :: 0 <= i < j < |entries| ==> KeyOf(entries[i]) != KeyOf(entries[j])
  }

  ghost predicate Lacks(entries: seq<Entry>, key: Key) {
    forall i :: 0 <= i < |entries| ==> KeyOf(entries[i]) != key
  }

  /** Keys are unique and the engine reaches exactly what the lists hold. */
  ghost predicate InStep(h: Host) {
    && UniqueKeys(h.fns) && UniqueKeys(h.colls) && (forall i :: 0 <= i < |h.colls| ==> !h.colls[i].aggregate)
    && h.scalars == Registry(h.fns, false) && h.aggregates == Registry(h.fns, true)
    && h.collations == Registry(h.colls, false)
  }

  function One(b: bool): nat {
    if b then 1 else 0
  }

  /** How often `x` occurs. */
  function Times(ids: seq<nat>, x: nat): nat {
    if ids == [] then 0 else Times(ids[..|ids| - 1], x) + One(ids[|ids| - 1] == x)
  }

  /** How many entries are registration `x`, or owe its destructor. */
  function Listed(entries: seq<Entry>, x: nat, owing: bool): nat {
    if entries == [] then 0
    else
      var last := entries[|entries| - 1];
      Listed(entries[..|entries| - 1], x, owing) + One(last.id == x && (owing ==> last.destroys))
  }

  lemma {:induction false} Unregistered(entries: seq<Entry>, key: Key, aggregate: bool)
    requires Lacks(entries, key)
    ensures key !in Registry(entries, aggregate)
  {
    if entries != [] {
      Unregistered(entries[..|entries| - 1], key, aggregate);
    }
  }

  lemma WithoutUnique(entries: seq<Entry>, i: nat)
    requires UniqueKeys(entries) && i < |entries|
    ensures UniqueKeys(Without(entries, i)) && Lacks(Without(entries, i), KeyOf(entries[i]))
  {
  }

  lemma WithoutLast(entries: seq<Entry>, i: nat)
    requires i < |entries|
    ensures var front, last, rest := entries[..|entries| - 1], entries[|entries| - 1], Without(entries, i);
            if i == |front| then rest == front
            else rest == Without(front, i) + [last] && rest[..|rest| - 1] == Without(front, i)
  {
    var front, last, rest := entries[..|entries| - 1], entries[|entries| - 1], Without(entries, i);
    if i < |front| {
      assert rest == front[..i] + front[i + 1..] + [last];
    }
  }

  /** Taking an entry out of a list takes its key, and nothing else, out of its registry. */
  lemma {:induction false} WithoutRegistry(entries: seq<Entry>, i: nat, aggregate: bool)
    requires UniqueKeys(entries) && i < |entries|
    ensures Registry(Without(entries, i), aggregate) ==
            if entries[i].aggregate == aggregate then Registry(entries, aggregate) - {KeyOf(entries[i])}
            else Registry(entries, aggregate)
  {
    var front, last := entries[..|entries| - 1], entries[|entries| - 1];
    var m, key := Registry(front, aggregate), KeyOf(entries[i]);
    WithoutLast(entries, i);
    RegistryStep(front, last, aggregate);
    assert front + [last] == entries;
    if i == |front| {
      Unregistered(front, key, aggregate);
      hide Registry, Without;
      assert m[key := last.id] - {key} == m;
    } else {
      WithoutRegistry(front, i, aggregate);
      RegistryStep(Without(front, i), last, aggregate);
      assert KeyOf(last) != key && front[i] == entries[i];
      hide Registry, Without, KeyOf;
      SetThenRemove(m, KeyOf(last), last.id, key);
    }
  }

  lemma SetThenRemove(m: map<Key, nat>, k: Key, v: nat, key: Key)
    requires k != key
    ensures m[k := v] - {key} == (m - {key})[k := v]
  {
  }

  lemma RegistryStep(entries: seq<Entry>, e: Entry, aggregate: bool)
    ensures Registry(entries + [e], aggregate) ==
            if e.aggregate == aggregate then Registry(entries, aggregate)[KeyOf(e) := e.id] else Registry(entries, aggregate)
  {
    assert (entries + [e])[..|entries|] == entries;
  }

  lemma ListedStep(entries: seq<Entry>, e: Entry, x: nat, owing: bool)
    ensures Listed(entries + [e], x, owing) == Listed(entries, x, owing) + One(e.id == x && (owing ==> e.destroys))
  {
    assert (entries + [e])[..|entries|] == entries;
  }

  lemma {:induction false} WithoutListed(entries: seq<Entry>, i: nat, x: nat, owing: bool)
    requires i < |entries|
    ensures Listed(Without(entries, i), x, owing) ==
            Listed(entries, x, owing) - One(entries[i].id == x && (owing ==> entries[i].destroys))
  {
    var front, last := entries[..|entries| - 1], entries[|entries| - 1];
    WithoutLast(entries, i);
    if i < |front| {
      WithoutListed(front, i, x, owing);
      ListedStep(Without(front, i), last, x, owing);
    }
  }

  lemma Appended(entries: seq<Entry>, e: Entry)
    requires UniqueKeys(entries) && Lacks(entries, KeyOf(e))
    ensures UniqueKeys(entries + [e])
    ensures Registry(entries + [e], e.aggregate) == Registry(entries, e.aggregate)[KeyOf(e) := e.id]
    ensures Registry(entries + [e], !e.aggregate) == Registry(entries, !e.aggregate)
  {
    RegistryStep(entries, e, e.aggregate);
    RegistryStep(entries, e, !e.aggregate);
  }

  // ---- invariant ----------------------------------------------------------

  /** How often the destructor of `x` has run, and how often it is still owed. */
  function Accounted(h: Host, x: nat): nat {
    Times(h.destroyed, x) + Listed(h.fns, x, true) + Listed(h.colls, x, true)
  }

  /** How often registration `x` is listed or destroyed. */
  function Known(h: Host, x: nat): nat {
    Times(h.destroyed, x) + Listed(h.fns, x, false) + Listed(h.colls, x, false)
  }

  ghost predicate Inv(h: Host) {
    InStep(h) && forall x :: Known(h, x) <= 1
  }

  /** The call with number `id` accounts for its own destructor and brings nothing else in. */
  ghost predicate Keeps(h: Host, d: Host, id: nat, destroys: bool) {
    forall x ::
      && Accounted(d, x) == Accounted(h, x) + One(destroys && x == id)
      && Known(d, x) <= Known(h, x) + One(x == id)
  }

  lemma DestroyCounts(h: Host, id: nat, destroys: bool, x: nat)
    ensures Times(Destroyed(h, id, destroys).destroyed, x) == Times(h.destroyed, x) + One(destroys && x == id)
  {
    assert (h.destroyed + [id])[..|h.destroyed|] == h.destroyed;
  }

  lemma DestroyKeeps(h: Host, id: nat, destroys: bool)
    requires InStep(h)
    ensures InStep(Destroyed(h, id, destroys)) && Keeps(h, Destroyed(h, id, destroys), id, destroys)
  {
    forall x
      ensures Times(Destroyed(h, id, destroys).destroyed, x) == Times(h.destroyed, x) + One(destroys && x == id)
    {
      DestroyCounts(h, id, destroys, x);
    }
  }

  lemma FnTakeKeeps(h: Host, key: Key)
    requires InStep(h)
    ensures var d := FnTaken(h, key);
            InStep(d) && Lacks(d.fns, key) && key !in d.scalars && key !in d.aggregates
  {
    hide Registry;
    var i, d := Position(h.fns, key), FnTaken(h, key);
    if i < |h.fns| {
      WithoutUnique(h.fns, i);
      WithoutRegistry(h.fns, i, false);
      WithoutRegistry(h.fns, i, true);
    }
    Unregistered(d.fns, key, false);
    Unregistered(d.fns, key, true);
  }

  lemma FnDropKeeps(h: Host, key: Key)
    requires InStep(h)
    ensures var d := FnDropped(h, key);
            InStep(d) && Lacks(d.fns, key) && key !in d.scalars && key !in d.aggregates
  {
    hide Registry, UniqueKeys, Lacks, Without;
    FnTakeKeeps(h, key);
  }

  lemma FnTakeCounts(h: Host, key: Key, x: nat, owing: bool)
    ensures var i := Position(h.fns, key);
            && FnTaken(h, key).destroyed == h.destroyed && FnTaken(h, key).colls == h.colls
            && Listed(FnTaken(h, key).fns, x, owing) == Listed(h.fns, x, owing)
               - One(i < |h.fns| && h.fns[i].id == x && (owing ==> h.fns[i].destroys))
  {
    var i := Position(h.fns, key);
    if i < |h.fns| {
      WithoutListed(h.fns, i, x, owing);
    }
  }

  /** Replacing moves a destructor from owed to run. */
  lemma FnDropCounts(h: Host, key: Key, x: nat)
    ensures Accounted(FnDropped(h, key), x) == Accounted(h, x)
    ensures Known(FnDropped(h, key), x) <= Known(h, x)
  {
    hide Destroyed, FnTaken, Listed, Times;
    var i := Position(h.fns, key);
    FnTakeCounts(h, key, x, true);
    FnTakeCounts(h, key, x, false);
    if i < |h.fns| {
      DestroyCounts(FnTaken(h, key), h.fns[i].id, h.fns[i].destroys, x);
      DestroyedLists(FnTaken(h, key), h.fns[i].id, h.fns[i].destroys);
    }
  }

  lemma DestroyedLists(h: Host, id: nat, destroys: bool)
    ensures var d := Destroyed(h, id, destroys); d == h.(destroyed := d.destroyed)
  {
  }

  lemma FnDeleteKeeps(h: Host, id: nat, key: Key, destroys: bool)
    requires InStep(h)
    ensures InStep(FnDeleted(h, id, key, destroys)) && Keeps(h, FnDeleted(h, id, key, destroys), id, destroys)
  {
    hide FnDropped, InStep, Destroyed, Accounted, Known;
    FnDropKeeps(h, key);
    var d := FnDropped(h, key);
    assert d.scalars - {key} == d.scalars && d.aggregates - {key} == d.aggregates;
    DestroyKeeps(d, id, destroys);
    forall x
      ensures Accounted(d, x) == Accounted(h, x) && Known(d, x) <= Known(h, x)
    {
      FnDropCounts(h, key, x);
    }
  }

  lemma FnAddKeeps(h: Host, fn: Entry)
    requires InStep(h)
    ensures InStep(FnAdded(h, fn)) && Keeps(h, FnAdded(h, fn), fn.id, fn.destroys)
  {
    hide FnDropped, Registry, UniqueKeys, Lacks, Listed;
    FnDropKeeps(h, KeyOf(fn));
    var d := FnDropped(h, KeyOf(fn));
    Appended(d.fns, fn);
    forall x
      ensures Accounted(FnAdded(h, fn), x) == Accounted(h, x) + One(fn.destroys && x == fn.id)
      ensures Known(FnAdded(h, fn), x) <= Known(h, x) + One(x == fn.id)
    {
      FnDropCounts(h, KeyOf(fn), x);
      ListedStep(d.fns, fn, x, true);
      ListedStep(d.fns, fn, x, false);
    }
  }

  /** The registries after a drop: the key is in neither, and no other key is touched. */
  lemma FnDropRegistries(h: Host, key: Key)
    requires InStep(h)
    ensures FnDropped(h, key).scalars == h.scalars - {key}
    ensures FnDropped(h, key).aggregates == h.aggregates - {key}
  {
    hide Registry, UniqueKeys, Without;
    FnTakeKeeps(h, key);
    var d := FnTaken(h, key);
    assert key !in d.scalars && key !in d.aggregates;
    assert d.scalars == d.scalars - {key} && d.aggregates == d.aggregates - {key};
  }

  /** The last registration of a name and argument count wins, in the registry of its kind only. */
  lemma LastFunctionWins(h: Host, step: Step)
    requires InStep(h) && step.CreateFunction? && step.name.Some?
    requires FunctionCreated(h, step.id, step.name, step.nArg, step.func, step.step, step.final, step.destroys).1 == OK
    ensures var d, key := Next(h, step), (Lower(step.name.value), step.nArg);
            && d.scalars == (if step.func then h.scalars[key := step.id] else h.scalars - {key})
            && d.aggregates == (if step.step && step.final then h.aggregates[key := step.id] else h.aggregates - {key})
            && d.collations == h.collations
  {
    hide InStep, FnDropped;
    var key := (Lower(step.name.value), step.nArg);
    FnDropRegistries(h, key);
    FnDropCollations(h, key);
    assert (h.scalars - {key})[key := step.id] == h.scalars[key := step.id];
    assert (h.aggregates - {key})[key := step.id] == h.aggregates[key := step.id];
    assert h.scalars - {key} - {key} == h.scalars - {key} && h.aggregates - {key} - {key} == h.aggregates - {key};
  }

  lemma FnDropCollations(h: Host, key: Key)
    ensures FnDropped(h, key).collations == h.collations
  {
  }

  /** A window function is an aggregate; deleting one clears both registries. */
  lemma LastWindowWins(h: Host, step: Step)
    requires InStep(h) && step.CreateWindow? && step.name.Some?
    requires WindowCreated(h, step.id, step.name, step.nArg, step.step, step.final, step.value, step.inverse, step.destroys).1 == OK
    ensures var d, key := Next(h, step), (Lower(step.name.value), step.nArg);
            && d.scalars == h.scalars - {key}
            && d.aggregates == (if step.step then h.aggregates[key := step.id] else h.aggregates - {key})
            && d.collations == h.collations
  {
    hide InStep, FnDropped;
    var key := (Lower(step.name.value), step.nArg);
    FnDropRegistries(h, key);
    FnDropCollations(h, key);
    assert (h.aggregates - {key})[key := step.id] == h.aggregates[key := step.id];
    assert h.scalars - {key} - {key} == h.scalars - {key} && h.aggregates - {key} - {key} == h.aggregates - {key};
  }

  lemma CollTakeKeeps(h: Host, id: nat, name: string, compare: bool, destroys: bool)
    requires InStep(h)
    ensures InStep(CollTaken(h, id, name, compare, destroys))
  {
    hide Registry;
    var key := (name, 0);
    var i := Position(h.colls, key);
    var rest := Without(h.colls, i);
    if i < |h.colls| {
      WithoutUnique(h.colls, i);
      WithoutRegistry(h.colls, i, false);
    } else {
      Unregistered(h.colls, key, false);
    }
    assert UniqueKeys(rest) && Lacks(rest, key) && Registry(rest, false) == h.collations - {key};
    Appended(rest, Entry(id, name, 0, false, destroys));
    assert (h.collations - {key})[key := id] == h.collations[key := id];
  }

  lemma CollTakeCounts(h: Host, id: nat, name: string, compare: bool, destroys: bool, x: nat, owing: bool)
    ensures var i, g := Position(h.colls, (name, 0)), CollTaken(h, id, name, compare, destroys);
            && g.destroyed == h.destroyed && g.fns == h.fns
            && Listed(g.colls, x, owing) == Listed(h.colls, x, owing) + One(compare && id == x && (owing ==> destroys))
               - One(i < |h.colls| && h.colls[i].id == x && (owing ==> h.colls[i].destroys))
  {
    hide Listed;
    var i := Position(h.colls, (name, 0));
    if i < |h.colls| {
      WithoutListed(h.colls, i, x, owing);
    }
    ListedStep(Without(h.colls, i), Entry(id, name, 0, false, destroys), x, owing);
  }

  lemma CollationInStep(h: Host, id: nat, name: Option<string>, compare: bool, destroys: bool)
    requires InStep(h)
    ensures InStep(CollationCreated(h, id, name, compare, destroys).0)
  {
    hide Registry, CollTaken, UniqueKeys;
    if name.Some? {
      CollTakeKeeps(h, id, name.value, compare, destroys);
    }
  }

  lemma CollationCounts(h: Host, id: nat, name: Option<string>, compare: bool, destroys: bool, x: nat)
    ensures var r := CollationCreated(h, id, name, compare, destroys);
            && Accounted(r.0, x) == Accounted(h, x) + One(destroys && name.Some? && x == id)
            && Known(r.0, x) <= Known(h, x) + One(x == id)
  {
    hide Destroyed, Listed, Times, CollTaken;
    if name.Some? {
      var i := Position(h.colls, (name.value, 0));
      CollTakeCounts(h, id, name.value, compare, destroys, x, true);
      CollTakeCounts(h, id, name.value, compare, destroys, x, false);
      ReplacedRuns(h, CollTaken(h, id, name.value, compare, destroys), i, id, compare, destroys, x);
    }
  }

  /** The destructors a collation call runs: that of the entry it replaces, and its own when it deletes. */
  lemma ReplacedRuns(h: Host, g: Host, i: nat, id: nat, compare: bool, destroys: bool, x: nat)
    requires i <= |h.colls|
    ensures var k := if i == |h.colls| then g else Destroyed(g, h.colls[i].id, h.colls[i].destroys);
            var r := if compare then k else Destroyed(k, id, destroys);
            && r == g.(destroyed := r.destroyed)
            && Times(r.destroyed, x) == Times(g.destroyed, x) + One(!compare && destroys && x == id)
                                        + One(i < |h.colls| && h.colls[i].destroys && x == h.colls[i].id)
  {
    hide Destroyed, Times;
    var k := if i == |h.colls| then g else Destroyed(g, h.colls[i].id, h.colls[i].destroys);
    if i < |h.colls| {
      DestroyCounts(g, h.colls[i].id, h.colls[i].destroys, x);
      DestroyedLists(g, h.colls[i].id, h.colls[i].destroys);
    }
    DestroyCounts(k, id, destroys, x);
    DestroyedLists(k, id, destroys);
  }

  // ---- runs ---------------------------------------------------------------

  datatype Step =
    | CreateFunction(id: nat, name: Option<string>, nArg: int, func: bool, step: bool, final: bool, destroys: bool)
    | CreateWindow(id: nat, name: Option<string>, nArg: int, step: bool, final: bool, value: bool, inverse: bool, destroys: bool)
    | CreateCollation(id: nat, name: Option<string>, compare: bool, destroys: bool)
    | Reopen

  /** A call is none of the calls before it. */
  predicate Enabled(h: Host, step: Step) {
    !step.Reopen? ==> Known(h, step.id) == 0
  }

  function Next(h: Host, step: Step): Host {
    match step
    case CreateFunction(id, name, nArg, func, xStep, final, destroys) =>
      FunctionCreated(h, id, name, nArg, func, xStep, final, destroys).0
    case CreateWindow(id, name, nArg, xStep, final, value, inverse, destroys) =>
      WindowCreated(h, id, name, nArg, xStep, final, value, inverse, destroys).0
    case CreateCollation(id, name, compare, destroys) => CollationCreated(h, id, name, compare, destroys).0
    case Reopen => Reinstalled(h)
  }

  /** A call hands its destructor over, unless it is a collation that is refused. */
  predicate HandsOver(step: Step, x: nat) {
    && !step.Reopen? && step.id == x && step.destroys
    && (step.CreateCollation? ==> step.name.Some?)
  }

  lemma FunctionKeeps(h: Host, step: Step)
    requires InStep(h) && (step.CreateFunction? || step.CreateWindow?)
    ensures InStep(Next(h, step)) && Keeps(h, Next(h, step), step.id, step.destroys)
  {
    hide InStep, Keeps, FnAdded, FnDeleted, Destroyed;
    var id, destroys := step.id, step.destroys;
    DestroyKeeps(h, id, destroys);
    if step.name.Some? {
      FnDeleteKeeps(h, id, (Lower(step.name.value), step.nArg), destroys);
      FnAddKeeps(h, Entry(id, Lower(step.name.value), step.nArg, step.CreateWindow? || step.step, destroys));
    }
  }

  /** Moving to a reopened database leaves the registries as they were. */
  lemma ReinstallChangesNothing(h: Host)
    requires InStep(h)
    ensures Reinstalled(h) == h
  {
  }

  lemma StepKeeps(h: Host, step: Step)
    requires Inv(h) && Enabled(h, step)
    ensures Inv(Next(h, step))
    ensures forall x :: Accounted(Next(h, step), x) == Accounted(h, x) + One(HandsOver(step, x))
  {
    hide InStep, Accounted, Known, CollationCreated, FunctionCreated, WindowCreated;
    match step
    case CreateFunction(_, _, _, _, _, _, _) => FunctionKeeps(h, step);
    case CreateWindow(_, _, _, _, _, _, _, _) => FunctionKeeps(h, step);
    case CreateCollation(id, name, compare, destroys) =>
      CollationInStep(h, id, name, compare, destroys);
      forall x
        ensures Accounted(Next(h, step), x) == Accounted(h, x) + One(HandsOver(step, x))
        ensures Known(Next(h, step), x) <= Known(h, x) + One(x == id)
      {
        CollationCounts(h, id, name, compare, destroys, x);
      }
    case Reopen =>
      ReinstallChangesNothing(h);
  }

  predicate IsRun(h: Host, steps: seq<Step>)
    decreases |steps|
  {
    steps != [] ==> Enabled(h, steps[0]) && IsRun(Next(h, steps[0]), steps[1..])
  }

  function Final(h: Host, steps: seq<Step>): Host
    decreases |steps|
  {
    if steps == [] then h else Final(Next(h, steps[0]), steps[1..])
  }

  /** How many calls of a run hand over the destructor of `x`. */
  function HandOvers(steps: seq<Step>, x: nat): nat {
    if steps == [] then 0 else One(HandsOver(steps[0], x)) + HandOvers(steps[1..], x)
  }

  lemma {:induction false} RunKeeps(h: Host, steps: seq<Step>, x: nat)
    requires Inv(h) && IsRun(h, steps)
    ensures Inv(Final(h, steps)) && Accounted(Final(h, steps), x) == Accounted(h, x) + HandOvers(steps, x)
    decreases |steps|
  {
    hide Inv, Accounted, Next, HandsOver, Enabled;
    if steps != [] {
      StepKeeps(h, steps[0]);
      RunKeeps(Next(h, steps[0]), steps[1..], x);
    }
  }

  lemma {:induction false} TimesConcat(a: seq<nat>, b: seq<nat>, x: nat)
    ensures Times(a + b, x) == Times(a, x) + Times(b, x)
    decreases |b|
  {
    if b == [] {
      assert a + b == a;
    } else {
      TimesConcat(a, b[..|b| - 1], x);
      assert (a + b)[..|a + b| - 1] == a + b[..|b| - 1];
    }
  }

  lemma {:induction false} OwedCounted(entries: seq<Entry>, x: nat)
    ensures Times(OwedBy(entries), x) == Listed(entries, x, true) <= Listed(entries, x, false)
  {
    if entries != [] {
      var front, last := entries[..|entries| - 1], entries[|entries| - 1];
      OwedCounted(front, x);
      assert OwedBy(front) + [] == OwedBy(front);
      assert (OwedBy(front) + [last.id])[..|OwedBy(front)|] == OwedBy(front);
    }
  }

  /**
   * Whatever was registered, replaced, deleted or refused, closing the connection leaves
   * every destructor that was handed over run exactly once and no other run at all.
   */
  lemma EachDestructorRunsOnce(steps: seq<Step>, x: nat)
    requires IsRun(EMPTY, steps)
    ensures Times(Closed(Final(EMPTY, steps)).destroyed, x) == HandOvers(steps, x) <= 1
  {
    hide Next, Enabled, IsRun, HandOvers, InStep, OwedBy;
    assert InStep(EMPTY) by { EmptyInStep(); }
    RunKeeps(EMPTY, steps, x);
    var h := Final(EMPTY, steps);
    OwedCounted(h.fns, x);
    OwedCounted(h.colls, x);
    TimesConcat(h.destroyed + OwedBy(h.fns), OwedBy(h.colls), x);
    TimesConcat(h.destroyed, OwedBy(h.fns), x);
    assert Known(h, x) <= 1;
  }

  lemma EmptyInStep()
    ensures InStep(EMPTY)
  {
  }

  /** The engine can reach the registration. */
  ghost predicate Reaches(h: Host, id: nat) {
    || (exists key :: key in h.scalars && h.scalars[key] == id)
    || (exists key :: key in h.aggregates && h.aggregates[key] == id)
    || (exists key :: key in h.collations && h.collations[key] == id)
  }

  lemma {:induction false} ReachedIsListed(entries: seq<Entry>, aggregate: bool)
    ensures forall key :: key in Registry(entries, aggregate) ==> Listed(entries, Registry(entries, aggregate)[key], false) > 0
  {
    if entries != [] {
      ReachedIsListed(entries[..|entries| - 1], aggregate);
    }
  }

  lemma {:induction false} RanCounted(ids: seq<nat>, x: nat)
    requires x in ids
    ensures Times(ids, x) > 0
  {
    if ids[|ids| - 1] != x {
      RanCounted(ids[..|ids| - 1], x);
    }
  }

  /** Before close, nothing whose destructor has run is reachable from the engine. */
  lemma DestroyedIsUnreachable(h: Host, id: nat)
    requires Inv(h) && id in h.destroyed
    ensures !Reaches(h, id)
  {
    hide Registry, UniqueKeys;
    ReachedIsListed(h.fns, false);
    ReachedIsListed(h.fns, true);
    ReachedIsListed(h.colls, false);
    RanCounted(h.destroyed, id);
    assert Known(h, id) <= 1;
  }
}
