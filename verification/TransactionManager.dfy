/** The manager of pending Lance transactions: each registered handle is passed to exactly one consuming call. */
module TransactionManager {
  type Key = string

  /** A transaction waiting for its DuckDB transaction to end. Handles name Lance transactions uniquely. */
  datatype Pending = Pending(path: string, cacheKey: Key, handle: nat)

  /** How a handle was consumed: a commit call consumes it whether or not it succeeds. */
  datatype Fate = Committed | CommitFailed | Freed
  datatype Call = Call(handle: nat, fate: Fate)

  function FateOf(i: nat, committed: nat): Fate {
    if i < committed then Committed else if i == committed then CommitFailed else Freed
  }

  /** The consuming calls when the first `committed` commits succeed: the next one fails, the rest are freed. */
  function CallsUpTo(list: seq<Pending>, committed: nat, n: nat): (r: seq<Call>)
    requires n <= |list|
    ensures |r| == n
  {
    seq(n, i requires 0 <= i < n => Call(list[i].handle, FateOf(i, committed)))
  }

  function FreeCalls(list: seq<Pending>): (r: seq<Call>)
    ensures |r| == |list|
  {
    seq(|list|, i requires 0 <= i < |list| => Call(list[i].handle, Freed))
  }

  function Keys(list: seq<Pending>): seq<Key> {
    seq(|list|, i requires 0 <= i < |list| => list[i].cacheKey)
  }

  /** What the storage layer and the engine do: the position of the first Lance commit that fails, if there is
      one in the list, and whether the engine's own commit after them succeeds. */
  datatype Outcome = Outcome(failAt: nat, engineOk: bool)

  function Landed(list: seq<Pending>, o: Outcome): nat {
    if o.failAt < |list| then o.failAt else |list|
  }

  predicate Succeeds(list: seq<Pending>, o: Outcome) {
    o.failAt >= |list| && o.engineOk
  }

  /** The keys that are invalidated. */
  function Dropped(list: seq<Pending>, o: Outcome): seq<Key> {
    if Succeeds(list, o) then Keys(list) else []
  }

  predicate Holds(list: seq<Pending>, handle: nat) {
    exists i | 0 <= i < |list| :: list[i].handle == handle
  }

  predicate DistinctHandles(list: seq<Pending>) {
    forall i, j | 0 <= i < j < |list| :: list[i].handle != list[j].handle
  }

  predicate Consumed(calls: seq<Call>, handle: nat) {
    exists i | 0 <= i < |calls| :: calls[i].handle == handle
  }

  predicate ConsumedOnce(calls: seq<Call>) {
    forall i, j | 0 <= i < j < |calls| :: calls[i].handle != calls[j].handle
  }

  function Waiting(pending: map<nat, seq<Pending>>, t: nat): seq<Pending> {
    if t in pending then pending[t] else []
  }

  /** Every registered handle waits in exactly one place, or has been consumed exactly once. */
  ghost predicate Accounted(registered: set<nat>, pending: map<nat, seq<Pending>>, calls: seq<Call>) {
    && ConsumedOnce(calls)
    && (forall t | t in pending :: DistinctHandles(pending[t]))
    && (forall t, u, h | t in pending && u in pending && t != u && Holds(pending[t], h) :: !Holds(pending[u], h))
    && (forall t, h | t in pending && Holds(pending[t], h) :: h in registered && !Consumed(calls, h))
    && (forall h | Consumed(calls, h) :: h in registered)
    && (forall h | h in registered :: Consumed(calls, h) || exists t :: t in pending && Holds(pending[t], h))
  }

  /** Calls that consume exactly the handles of `list`, each once. */
  predicate Consumes(list: seq<Pending>, calls: seq<Call>) {
    |calls| == |list| && forall i | 0 <= i < |list| :: calls[i].handle == list[i].handle
  }

  lemma ConsumedAppend(a: seq<Call>, b: seq<Call>, h: nat)
    ensures Consumed(a + b, h) <==> Consumed(a, h) || Consumed(b, h)
  {
    var all := a + b;
    assert forall i | 0 <= i < |a| :: all[i] == a[i];
    assert forall i | 0 <= i < |b| :: all[|a| + i] == b[i];
  }

  lemma ConsumedHolds(list: seq<Pending>, calls: seq<Call>, h: nat)
    requires Consumes(list, calls)
    ensures Consumed(calls, h) <==> Holds(list, h)
  {
    if Consumed(calls, h) {
      var i :| 0 <= i < |calls| && calls[i].handle == h;
      assert list[i].handle == h;
    }
    if Holds(list, h) {
      var i :| 0 <= i < |list| && list[i].handle == h;
      assert calls[i].handle == h;
    }
  }

  lemma OnceAppend(a: seq<Call>, list: seq<Pending>, b: seq<Call>)
    requires ConsumedOnce(a) && DistinctHandles(list) && Consumes(list, b)
    requires forall h | Holds(list, h) :: !Consumed(a, h)
    ensures ConsumedOnce(a + b)
  {
    var all := a + b;
    forall i, j | 0 <= i < j < |all|
      ensures all[i].handle != all[j].handle
    {
      if i < |a| <= j {
        assert Holds(list, list[j - |a|].handle);
        assert a[i].handle == all[i].handle;
      }
    }
  }

  /** Ending a transaction by consuming its whole list keeps every handle accounted for. */
  lemma EndAccounted(registered: set<nat>, pending: map<nat, seq<Pending>>, calls: seq<Call>, t: nat, made: seq<Call>)
    requires Accounted(registered, pending, calls) && Consumes(Waiting(pending, t), made)
    ensures Accounted(registered, pending - {t}, calls + made)
  {
    var list := Waiting(pending, t);
    OnceAppend(calls, list, made);
    forall h
      ensures Consumed(calls + made, h) <==> Consumed(calls, h) || Holds(list, h)
    {
      ConsumedAppend(calls, made, h);
      ConsumedHolds(list, made, h);
    }
    forall h | h in registered && !Consumed(calls + made, h)
      ensures exists u :: u in pending - {t} && Holds((pending - {t})[u], h)
    {
      var u :| u in pending && Holds(pending[u], h);
      assert u in pending - {t};
    }
  }

  lemma HoldsAppend(list: seq<Pending>, p: Pending, h: nat)
    ensures Holds(list + [p], h) <==> Holds(list, h) || h == p.handle
  {
    var all := list + [p];
    assert forall i | 0 <= i < |list| :: all[i] == list[i];
    assert all[|list|] == p;
  }

  lemma RegisterAccounted(registered: set<nat>, pending: map<nat, seq<Pending>>, calls: seq<Call>, t: nat, p: Pending)
    requires Accounted(registered, pending, calls) && p.handle !in registered
    ensures Accounted(registered + {p.handle}, pending[t := Waiting(pending, t) + [p]], calls)
  {
    var list, after := Waiting(pending, t), pending[t := Waiting(pending, t) + [p]];
    forall h
      ensures Holds(after[t], h) <==> Holds(list, h) || h == p.handle
    {
      HoldsAppend(list, p, h);
    }
    forall i | 0 <= i < |list|
      ensures list[i].handle != p.handle
    {
      assert Holds(list, list[i].handle);
    }
    forall u | u in pending
      ensures !Holds(pending[u], p.handle)
    {
    }
    forall h | h in registered + {p.handle} && !Consumed(calls, h)
      ensures exists u :: u in after && Holds(after[u], h)
    {
      if h == p.handle {
        assert Holds(after[t], h);
      } else {
        var u :| u in pending && Holds(pending[u], h);
        assert u in after && Holds(after[u], h);
      }
    }
  }

  /** When nothing is pending, every registered handle has been consumed by exactly one call. */
  lemma NothingLost(registered: set<nat>, calls: seq<Call>, h: nat) returns (i: nat)
    requires Accounted(registered, map[], calls) && h in registered
    ensures i < |calls| && calls[i].handle == h
    ensures forall j | 0 <= j < |calls| && calls[j].handle == h :: j == i
  {
    assert Consumed(calls, h);
    i :| 0 <= i < |calls| && calls[i].handle == h;
  }

  class Manager {
    var pending: map<nat, seq<Pending>>
    /** Consuming calls made so far, and cache keys invalidated so far. */
    var calls: seq<Call>
    var invalidated: seq<Key>
    ghost var registered: set<nat>

    ghost predicate Valid()
      reads this
    {
      Accounted(registered, pending, calls)
    }

    constructor ()
      ensures Valid() && registered == {} && pending == map[] && calls == [] && invalidated == []
    {
      pending, calls, invalidated, registered := map[], [], [], {};
    }

    method Register(t: nat, p: Pending)
      requires Valid() && p.handle !in registered
      modifies this`pending, this`registered
      ensures Valid() && registered == old(registered) + {p.handle}
      ensures pending == old(pending)[t := Waiting(old(pending), t) + [p]]
    {
      RegisterAccounted(registered, pending, calls, t, p);
      pending := pending[t := Waiting(pending, t) + [p]];
      registered := registered + {p.handle};
    }

    method TakePending(t: nat) returns (list: seq<Pending>)
      modifies this`pending
      ensures list == Waiting(old(pending), t) && pending == old(pending) - {t}
    {
      list := Waiting(pending, t);
      pending := pending - {t};
    }

    /** Commits in registration order; the first failure frees the rest. */
    method Commit(t: nat, outcome: Outcome) returns (ok: bool)
      requires Valid()
      modifies this
      ensures Valid() && registered == old(registered)
      ensures t !in pending && pending == old(pending) - {t}
      ensures var list := Waiting(old(pending), t);
              && ok == Succeeds(list, outcome)
              && calls == old(calls) + CallsUpTo(list, Landed(list, outcome), |list|)
              && invalidated == old(invalidated) + Dropped(list, outcome)
    {
      var list := TakePending(t);
      var landed := CommitAll(list, outcome.failAt);
      EndAccounted(old(registered), old(pending), old(calls), t, CallsUpTo(list, landed, |list|));
      ok := landed == |list| && outcome.engineOk;
      if ok {
        InvalidateAll(list);
      }
    }

    method CommitAll(list: seq<Pending>, failAt: nat) returns (landed: nat)
      modifies this`calls
      ensures landed == Landed(list, Outcome(failAt, true)) && calls == old(calls) + CallsUpTo(list, landed, |list|)
    {
      for i := 0 to |list|
        invariant i <= failAt && calls == old(calls) + CallsUpTo(list, |list|, i)
      {
        if i == failAt {
          ghost var all := CallsUpTo(list, i, |list|);
          assert CallsUpTo(list, |list|, i) == all[..i];
          calls := calls + [Call(list[i].handle, CommitFailed)];
          FreeFrom(list, i);
          assert all == all[..i] + [all[i]] + all[i + 1..];
          return i;
        }
        calls := calls + [Call(list[i].handle, Committed)];
      }
      landed := |list|;
    }

    method InvalidateAll(list: seq<Pending>)
      modifies this`invalidated
      ensures invalidated == old(invalidated) + Keys(list)
    {
      for i := 0 to |list|
        invariant invalidated == old(invalidated) + Keys(list)[..i]
      {
        invalidated := invalidated + [list[i].cacheKey];
      }
    }

    /** Frees the handles after a failed commit. */
    method FreeFrom(list: seq<Pending>, failed: nat)
      requires failed < |list|
      modifies this`calls
      ensures old(calls) + CallsUpTo(list, failed, |list|)[failed + 1..] == calls
    {
      ghost var all := CallsUpTo(list, failed, |list|);
      for i := failed + 1 to |list|
        invariant calls == old(calls) + all[failed + 1..i]
      {
        calls := calls + [Call(list[i].handle, Freed)];
      }
    }

    method Rollback(t: nat)
      requires Valid()
      modifies this
      ensures Valid() && registered == old(registered) && invalidated == old(invalidated)
      ensures t !in pending && pending == old(pending) - {t}
      ensures calls == old(calls) + FreeCalls(Waiting(old(pending), t))
    {
      var list := TakePending(t);
      FreeAll(list);
      EndAccounted(old(registered), old(pending), old(calls), t, FreeCalls(list));
    }

    method FreeAll(list: seq<Pending>)
      modifies this`calls
      ensures calls == old(calls) + FreeCalls(list)
    {
      for i := 0 to |list|
        invariant calls == old(calls) + FreeCalls(list)[..i]
      {
        calls := calls + [Call(list[i].handle, Freed)];
      }
    }
  }

  // Cache keys of what was committed.

  /** Every append that landed has its cache key invalidated. */
  predicate KeysDropped(list: seq<Pending>, o: Outcome) {
    forall i | 0 <= i < Landed(list, o) :: list[i].cacheKey in Dropped(list, o)
  }

  /** Keys are dropped exactly if everything succeeded or nothing landed. */
  lemma KeysDroppedIff(list: seq<Pending>, o: Outcome)
    ensures KeysDropped(list, o) <==> Succeeds(list, o) || Landed(list, o) == 0
  {
    if Succeeds(list, o) {
      forall i | 0 <= i < Landed(list, o)
        ensures list[i].cacheKey in Dropped(list, o)
      {
        assert Keys(list)[i] == list[i].cacheKey;
      }
    } else if Landed(list, o) != 0 {
      assert list[0].cacheKey !in Dropped(list, o);
    }
  }

  /** Whatever the outcome, a commit drops the keys of all that landed if and only if nothing was pending; if
      the engine's own commit cannot fail, if and only if at most one append was pending. */
  lemma CommittedKeysInvalidated(pending: map<nat, seq<Pending>>, t: nat)
    ensures (forall o: Outcome :: KeysDropped(Waiting(pending, t), o)) <==> Waiting(pending, t) == []
    ensures (forall o: Outcome | o.engineOk :: KeysDropped(Waiting(pending, t), o)) <==> |Waiting(pending, t)| <= 1
  {
    var list := Waiting(pending, t);
    forall o
      ensures KeysDropped(list, o) <==> Succeeds(list, o) || Landed(list, o) == 0
    {
      KeysDroppedIff(list, o);
    }
    if list != [] {
      assert !KeysDropped(list, Outcome(|list|, false));
    }
    if |list| > 1 {
      assert !KeysDropped(list, Outcome(1, true));
    }
  }

  /** Two appends, the second fails: the first is committed and its key stays in the cache. */
  method CommittedKeyStaysCached(first: Pending, second: Pending) returns (m: Manager)
    requires first.handle != second.handle
    ensures m.calls == [Call(first.handle, Committed), Call(second.handle, CommitFailed)]
    ensures m.pending == map[] && first.cacheKey !in m.invalidated
  {
    m := new Manager();
    m.Register(0, first);
    assert m.pending[0] == [first];
    m.Register(0, second);
    assert Waiting(m.pending, 0) == [first, second] && m.pending - {0} == map[];
    var ok := m.Commit(0, Outcome(1, true));
  }
}
