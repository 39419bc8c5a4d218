/**
 * The ingest lab's sliding-window limiter: a list of grant times, pruned on
 * every call. Clock readings are reals and never go backwards.
 */
module RateLimit {
  import opened Options

  /** The times less than `window` before `now`. */
  function Recent(times: seq<real>, window: real, now: real): seq<real> {
    if times == [] then []
    else
      var rest := Recent(times[..|times| - 1], window, now);
      var last := times[|times| - 1];
      if now - last < window then rest + [last] else rest
  }

  /** How many of the times fall in the half-open interval from `a` to `b`. */
  function Within(times: seq<real>, a: real, b: real): nat {
    if times == [] then 0
    else Within(times[..|times| - 1], a, b) + (if a <= times[|times| - 1] < b then 1 else 0)
  }

  predicate NonDecreasing(times: seq<real>) {
    forall i, j :: 0 <= i < j < |times| ==> times[i] <= times[j]
  }

  /** The grants of a whole run of calls: a call is granted unless `limit` grants are recent. */
  function Grants(limit: nat, window: real, calls: seq<real>): seq<real> {
    if calls == [] then []
    else
      var before := Grants(limit, window, calls[..|calls| - 1]);
      var now := calls[|calls| - 1];
      if |Recent(before, window, now)| >= limit then before else before + [now]
  }

  ghost predicate NoneAfter(times: seq<real>, now: real) {
    forall i :: 0 <= i < |times| ==> times[i] <= now
  }

  lemma {:induction false} GrantsBefore(limit: nat, window: real, calls: seq<real>, now: real)
    requires NoneAfter(calls, now)
    ensures NoneAfter(Grants(limit, window, calls), now)
  {
    if calls != [] {
      GrantsBefore(limit, window, calls[..|calls| - 1], now);
    }
  }

  /** Pruning again later forgets nothing that a fresh look would keep. */
  lemma {:induction false} PruneTwice(times: seq<real>, window: real, now: real, later: real)
    requires now <= later
    ensures Recent(Recent(times, window, now), window, later) == Recent(times, window, later)
    ensures |Recent(times, window, later)| <= |Recent(times, window, now)|
  {
    if times != [] {
      PruneTwice(times[..|times| - 1], window, now, later);
      var rest := Recent(times[..|times| - 1], window, now);
      var last := times[|times| - 1];
      if now - last < window {
        assert (rest + [last])[..|rest|] == rest;
      }
    }
  }

  /** Grants that share an interval with a later call are all recent at that call. */
  lemma {:induction false} IntervalIsRecent(times: seq<real>, window: real, a: real, now: real)
    requires a <= now < a + window && NoneAfter(times, now)
    ensures Within(times, a, a + window) <= |Recent(times, window, now)|
  {
    if times != [] {
      IntervalIsRecent(times[..|times| - 1], window, a, now);
    }
  }

  /** At most `limit` grants in any half-open interval of length `window`, over any run. */
  lemma {:induction false} NeverOverLimit(limit: nat, window: real, calls: seq<real>, a: real)
    requires NonDecreasing(calls)
    ensures Within(Grants(limit, window, calls), a, a + window) <= limit
  {
    if calls != [] {
      var front, now := calls[..|calls| - 1], calls[|calls| - 1];
      NeverOverLimit(limit, window, front, a);
      var before := Grants(limit, window, front);
      if |Recent(before, window, now)| < limit {
        assert (before + [now])[..|before|] == before;
        if a <= now < a + window {
          GrantsBefore(limit, window, front, now);
          IntervalIsRecent(before, window, a, now);
        }
      }
    }
  }

  /** No moment of a run has more than `limit` recent grants, so a refusal means exactly `limit`. */
  lemma {:induction false} RecentBounded(limit: nat, window: real, calls: seq<real>, now: real)
    requires NonDecreasing(calls + [now])
    ensures |Recent(Grants(limit, window, calls), window, now)| <= limit
  {
    if calls != [] {
      var front, last := calls[..|calls| - 1], calls[|calls| - 1];
      assert (calls + [now])[|calls|] == now && (calls + [now])[|calls| - 1] == last;
      assert forall i :: 0 <= i < |calls| ==> (calls + [now])[i] == calls[i];
      RecentBounded(limit, window, front, last);
      var before := Grants(limit, window, front);
      PruneTwice(before, window, last, now);
      if |Recent(before, window, last)| < limit {
        assert (before + [last])[..|before|] == before;
      }
    }
  }

  class Limiter {
    const limit: nat
    const window: real
    var spent: seq<real>
    ghost var calls: seq<real>

    ghost predicate Valid()
      reads this
    {
      && NonDecreasing(calls)
      && forall later :: (calls == [] || calls[|calls| - 1] <= later) ==>
           Recent(spent, window, later) == Recent(Granted(), window, later)
    }

    ghost function Granted(): seq<real>
      reads this
    {
      Grants(limit, window, calls)
    }

    constructor (limit: nat, window: real)
      ensures Valid() && calls == [] && this.limit == limit && this.window == window
    {
      this.limit, this.window, spent, calls := limit, window, [], [];
    }

    method Charge(now: real) returns (left: Option<nat>)
      requires Valid() && NonDecreasing(calls + [now])
      modifies this
      ensures Valid() && calls == old(calls) + [now]
      ensures left.None? <==> |Recent(old(Granted()), window, now)| == limit
      ensures left.None? ==> Granted() == old(Granted())
      ensures left.Some? ==> Granted() == old(Granted()) + [now]
      ensures left.Some? ==> left.value == limit - |Recent(old(Granted()), window, now)| - 1
    {
      ghost var was := Granted();
      assert calls == [] || calls[|calls| - 1] <= now by {
        if calls != [] {
          assert (calls + [now])[|calls| - 1] <= (calls + [now])[|calls|];
        }
      }
      RecentBounded(limit, window, calls, now);
      forall later | now <= later
        ensures Recent(Recent(was, window, now), window, later) == Recent(was, window, later)
      {
        PruneTwice(was, window, now, later);
      }
      spent := Recent(spent, window, now);
      assert spent == Recent(was, window, now);
      calls := calls + [now];
      assert calls[..|calls| - 1] == old(calls);
      if |spent| >= limit {
        return None;
      }
      assert (spent + [now])[..|spent|] == spent && (was + [now])[..|was|] == was;
      spent := spent + [now];
      left := Some(limit - |spent|);
    }
  }
}
