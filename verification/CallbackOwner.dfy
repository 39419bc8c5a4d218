/**
 * A connection's registrations as the shim keeps them: two lists and three engine
 * registries changed in place. Each method is proved against the operation on values,
 * and a destructor is called only when the engine cannot reach what it frees.
 */
module CallbackOwner {
  import opened Options
  import opened Callbacks

  class Owner {
    var fns: seq<Entry>
    var colls: seq<Entry>
    var scalars: map<Key, nat>
    var aggregates: map<Key, nat>
    var collations: map<Key, nat>
    /** The destructors that have been called, in order. */
    ghost var destroyed: seq<nat>

    ghost function State(): Host
      reads this
    {
      Host(fns, colls, scalars, aggregates, collations, destroyed)
    }

    constructor ()
      ensures State() == EMPTY
    {
      fns, colls, scalars, aggregates, collations, destroyed := [], [], map[], map[], map[], [];
    }

    /** Call `xDestroy(pApp)` if there is one; before close the engine must not reach it. */
    method Destroy(id: nat, destroys: bool)
      requires !Reaches(State(), id)
      modifies this`destroyed
      ensures State() == Destroyed(old(State()), id, destroys)
    {
      if destroys {
        destroyed := destroyed + [id];
      }
    }

    method Find(entries: seq<Entry>, key: Key) returns (i: nat)
      ensures i == Position(entries, key)
    {
      i := 0;
      while i < |entries| && KeyOf(entries[i]) != key
        invariant i <= |entries|
        invariant forall j :: 0 <= j < i ==> KeyOf(entries[j]) != key
      {
        i := i + 1;
      }
    }

    /** Replace: out of the list, out of its registry, and only then destroyed. */
    method DropFunction(key: Key)
      requires Inv(State())
      modifies this
      ensures State() == FnDropped(old(State()), key)
    {
      var i := Find(fns, key);
      if i < |fns| {
        var e := fns[i];
        ghost var was := State();
        fns := fns[..i] + fns[i + 1..];
        if e.aggregate {
          aggregates := aggregates - {key};
        } else {
          scalars := scalars - {key};
        }
        DroppedIsUnreachable(was, key);
        Destroy(e.id, e.destroys);
      }
    }

    method CreateFunction(id: nat, name: Option<string>, nArg: int, func: bool, step: bool, final: bool, destroys: bool)
      returns (code: Code)
      requires Inv(State()) && Known(State(), id) == 0
      modifies this
      ensures (State(), code) == FunctionCreated(old(State()), id, name, nArg, func, step, final, destroys)
    {
      NewIsUnreachable(State(), id);
      if name.None? || nArg < -1 || nArg > 127 {
        Destroy(id, destroys);
        return MISUSE;
      }
      var key := (Lower(name.value), nArg);
      var isAgg := step || final;
      if isAgg && (!step || !final) {
        Destroy(id, destroys);
        return MISUSE;
      }
      if isAgg && func {
        Destroy(id, destroys);
        return MISUSE;
      }
      code := Install(key, id, isAgg, !func && !isAgg, destroys);
    }

    method CreateWindowFunction(id: nat, name: Option<string>, nArg: int,
                                step: bool, final: bool, value: bool, inverse: bool, destroys: bool)
      returns (code: Code)
      requires Inv(State()) && Known(State(), id) == 0
      modifies this
      ensures (State(), code) == WindowCreated(old(State()), id, name, nArg, step, final, value, inverse, destroys)
    {
      NewIsUnreachable(State(), id);
      if name.None? || nArg < -1 || nArg > 127 {
        Destroy(id, destroys);
        return MISUSE;
      }
      var key := (Lower(name.value), nArg);
      var deleting := !step && !final && !value && !inverse;
      if !deleting && (!step || !final) {
        Destroy(id, destroys);
        return MISUSE;
      }
      code := Install(key, id, true, deleting, destroys);
    }

    /** The common end of both: drop what is there, then delete or add. */
    method Install(key: Key, id: nat, aggregate: bool, deleting: bool, destroys: bool) returns (code: Code)
      requires Inv(State()) && Known(State(), id) == 0
      modifies this
      ensures code == OK
      ensures State() == if deleting then FnDeleted(old(State()), id, key, destroys)
                         else FnAdded(old(State()), Entry(id, key.0, key.1, aggregate, destroys))
    {
      ghost var was := State();
      DropFunction(key);
      NewStaysUnreachable(was, key, id);
      if deleting {
        scalars := scalars - {key};
        aggregates := aggregates - {key};
        assert scalars == FnDropped(was, key).scalars && aggregates == FnDropped(was, key).aggregates by {
          FnDropKeeps(was, key);
        }
        Destroy(id, destroys);
        return OK;
      }
      if aggregate {
        aggregates := aggregates[key := id];
      } else {
        scalars := scalars[key := id];
      }
      fns := fns + [Entry(id, key.0, key.1, aggregate, destroys)];
      return OK;
    }

    method CreateCollation(id: nat, name: Option<string>, compare: bool, destroys: bool) returns (code: Code)
      requires Inv(State()) && Known(State(), id) == 0
      modifies this
      ensures (State(), code) == CollationCreated(old(State()), id, name, compare, destroys)
    {
      if name.None? {
        return MISUSE;
      }
      ghost var was := State();
      var key := (name.value, 0);
      var i := Find(colls, key);
      var previous := if i < |colls| then Some(colls[i]) else None;
      if i < |colls| {
        colls := colls[..i] + colls[i + 1..];
      }
      if !compare {
        collations := collations - {key};
        CollationTakenIsUnreachable(was, id, name.value, compare, destroys);
        assert State() == CollTaken(was, id, name.value, compare, destroys);
        if previous.Some? {
          Destroy(previous.value.id, previous.value.destroys);
        }
        Destroy(id, destroys);
        return OK;
      }
      collations := collations[key := id];
      colls := colls + [Entry(id, name.value, 0, false, destroys)];
      if previous.Some? {
        CollationTakenIsUnreachable(was, id, name.value, compare, destroys);
        Destroy(previous.value.id, previous.value.destroys);
      }
      return OK;
    }

    /** Free the connection: every destructor left, functions first. */
    method Close()
      modifies this
      ensures State() == Closed(old(State()))
    {
      for i := 0 to |fns|
        invariant destroyed == old(destroyed) + OwedBy(fns[..i])
        invariant fns == old(fns) && colls == old(colls)
      {
        assert fns[..i + 1][..i] == fns[..i];
        if fns[i].destroys {
          destroyed := destroyed + [fns[i].id];
        }
      }
      assert fns[..|fns|] == fns;
      for i := 0 to |colls|
        invariant destroyed == old(destroyed) + OwedBy(fns) + OwedBy(colls[..i])
        invariant fns == old(fns) && colls == old(colls)
      {
        assert colls[..i + 1][..i] == colls[..i];
        if colls[i].destroys {
          destroyed := destroyed + [colls[i].id];
        }
      }
      assert colls[..|colls|] == colls;
      fns, colls, scalars, aggregates, collations := [], [], map[], map[], map[];
    }
  }

  // ---- what the engine cannot reach ---------------------------------------

  lemma UnlistedIsUnreachable(h: Host, id: nat)
    requires InStep(h) && Listed(h.fns, id, false) == 0 && Listed(h.colls, id, false) == 0
    ensures !Reaches(h, id)
  {
    hide Registry, Listed, UniqueKeys;
    ReachedIsListed(h.fns, false);
    ReachedIsListed(h.fns, true);
    ReachedIsListed(h.colls, false);
  }

  lemma NewIsUnreachable(h: Host, id: nat)
    requires Inv(h) && Known(h, id) == 0
    ensures !Reaches(h, id)
  {
    hide InStep;
    UnlistedIsUnreachable(h, id);
  }

  lemma NewStaysUnreachable(h: Host, key: Key, id: nat)
    requires Inv(h) && Known(h, id) == 0
    ensures !Reaches(FnDropped(h, key), id)
  {
    hide InStep, FnDropped;
    FnDropKeeps(h, key);
    FnDropCounts(h, key, id);
    UnlistedIsUnreachable(FnDropped(h, key), id);
  }

  lemma DroppedIsUnreachable(h: Host, key: Key)
    requires Inv(h) && Position(h.fns, key) < |h.fns|
    ensures !Reaches(FnTaken(h, key), h.fns[Position(h.fns, key)].id)
  {
    hide InStep, FnTaken, Listed;
    var id := h.fns[Position(h.fns, key)].id;
    FnTakeKeeps(h, key);
    FnTakeCounts(h, key, id, false);
    assert Known(h, id) <= 1;
    UnlistedIsUnreachable(FnTaken(h, key), id);
  }

  /** Neither the entry a collation replaces nor, on deletion, the call's own data is reachable. */
  lemma CollationTakenIsUnreachable(h: Host, id: nat, name: string, compare: bool, destroys: bool)
    requires Inv(h) && Known(h, id) == 0
    ensures var i, g := Position(h.colls, (name, 0)), CollTaken(h, id, name, compare, destroys);
            && (i < |h.colls| ==> !Reaches(g, h.colls[i].id))
            && (!compare ==> !Reaches(g, id))
  {
    hide InStep, CollTaken, Listed;
    var i, g := Position(h.colls, (name, 0)), CollTaken(h, id, name, compare, destroys);
    CollTakeKeeps(h, id, name, compare, destroys);
    if i < |h.colls| {
      var old_ := h.colls[i].id;
      CollTakeCounts(h, id, name, compare, destroys, old_, false);
      assert Known(h, old_) <= 1;
      UnlistedIsUnreachable(g, old_);
    }
    if !compare {
      CollTakeCounts(h, id, name, compare, destroys, id, false);
      UnlistedIsUnreachable(g, id);
    }
  }
}
