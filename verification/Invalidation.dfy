/** A value that is in the pool when invalidate runs is never leased again: not over any sequence of
    calls of the storage, and so not in any run of the synchronous pool. */
module Invalidation {
  import opened TimeTraits
  import opened Sequences
  import opened StorageSpec
  import opened SyncSpec
  import opened SyncProtocol

  /** One of the calls stored value v in cell c. */
  ghost predicate PutIn(calls: seq<Call>, c: CellId, v: Value) {
    exists i :: 0 <= i < |calls| && calls[i].CallPut? && calls[i].cell == c && calls[i].value == v
  }

  /** The cell may be leased, or recycled for another lease. */
  predicate Circulates(s: StorageState, c: CellId) {
    c in s.cells && (c in s.available || (c in s.used && !s.cells[c].wasteOnRecycle))
  }

  /** All values in such cells were stored by these calls. */
  ghost predicate OnlyNew(s: StorageState, calls: seq<Call>) {
    forall c :: Circulates(s, c) && s.cells[c].value.Some? ==> PutIn(calls, c, s.cells[c].value.value)
  }

  lemma PutInMore(calls: seq<Call>, call: Call, c: CellId, v: Value)
    requires PutIn(calls, c, v)
    ensures PutIn(calls + [call], c, v)
  {
    var i :| 0 <= i < |calls| && calls[i].CallPut? && calls[i].cell == c && calls[i].value == v;
    assert (calls + [call])[i] == calls[i];
  }

  /** Where t circulates a value, s did already. */
  ghost predicate AddsNone(s: StorageState, t: StorageState) {
    forall c :: Circulates(t, c) && t.cells[c].value.Some? ==> Circulates(s, c) && t.cells[c].value == s.cells[c].value
  }

  lemma AddsNoneKeepsNew(s: StorageState, t: StorageState, calls: seq<Call>, call: Call)
    requires OnlyNew(s, calls) && AddsNone(s, t)
    ensures OnlyNew(t, calls + [call])
  {
    forall c | Circulates(t, c) && t.cells[c].value.Some? ensures PutIn(calls + [call], c, t.cells[c].value.value) {
      PutInMore(calls, call, c, t.cells[c].value.value);
    }
  }

  lemma LeaseAddsNone(s: StorageState, now: Ticks)
    requires WellFormed(s)
    ensures AddsNone(s, Lease(s, now).0)
  {
    LeaseIsWellFormed(s, now);
    InListsAll(s);
    if Lease(s, now).1.Some? {
      LeaseGrants(s, now);
    } else {
      LeaseFailsIffAllUsed(s, now);
    }
  }

  lemma WasteAddsNone(s: StorageState, c: CellId)
    requires WellFormed(s) && c in s.used && c in s.cells
    ensures AddsNone(s, StorageSpec.Waste(s, c))
  {
    WithoutIsPart(s.used, c);
  }

  lemma RecycleAddsNone(s: StorageState, c: CellId, now: Ticks)
    requires WellFormed(s) && c in s.used && c in s.cells
    ensures AddsNone(s, StorageSpec.Recycle(s, c, now))
  {
    WithoutIsPart(s.used, c);
  }

  lemma PutKeepsNew(s: StorageState, calls: seq<Call>, c: CellId, v: Value, now: Ticks)
    requires OnlyNew(s, calls) && c in s.cells
    ensures OnlyNew(Put(s, c, v, now), calls + [CallPut(c, v, now)])
  {
    var call, t := CallPut(c, v, now), Put(s, c, v, now);
    assert (calls + [call])[|calls|] == call;
    forall d | Circulates(t, d) && t.cells[d].value.Some? ensures PutIn(calls + [call], d, t.cells[d].value.value) {
      if d != c {
        assert Circulates(s, d);
        PutInMore(calls, call, d, t.cells[d].value.value);
      }
    }
  }

  lemma CallKeepsNew(s: StorageState, calls: seq<Call>, call: Call)
    requires WellFormed(s) && OnlyNew(s, calls) && StorageSpec.Allowed(s, call)
    ensures OnlyNew(Apply(s, call), calls + [call])
  {
    match call
    case CallLease(now) =>
      LeaseAddsNone(s, now);
      AddsNoneKeepsNew(s, Lease(s, now).0, calls, call);
    case CallRecycle(c, now) =>
      RecycleAddsNone(s, c, now);
      AddsNoneKeepsNew(s, StorageSpec.Recycle(s, c, now), calls, call);
    case CallWaste(c) =>
      WasteAddsNone(s, c);
      AddsNoneKeepsNew(s, StorageSpec.Waste(s, c), calls, call);
    case CallInvalidate => InvalidateLeavesNone(s, calls + [call]);
    case CallPut(c, v, now) => PutKeepsNew(s, calls, c, v, now);
  }

  lemma InvalidateLeavesNone(s: StorageState, calls: seq<Call>)
    requires WellFormed(s)
    ensures OnlyNew(StorageSpec.Invalidate(s), calls)
  {
    InListsAll(s);
  }

  lemma {:induction false} CallsKeepNew(s: StorageState, before: seq<Call>, calls: seq<Call>)
    requires WellFormed(s) && OnlyNew(s, before) && AllAllowed(s, calls)
    ensures WellFormed(ApplyAll(s, calls)) && OnlyNew(ApplyAll(s, calls), before + calls)
    decreases |calls|
  {
    if calls == [] {
      assert before + calls == before;
    } else {
      CallKeepsNew(s, before, calls[0]);
      CallsConserveCells(s, calls[..1]);
      assert calls[..1][1..] == [] && ApplyAll(s, calls[..1]) == Apply(s, calls[0]);
      CallsKeepNew(Apply(s, calls[0]), before + [calls[0]], calls[1..]);
      assert before + [calls[0]] + calls[1..] == before + calls;
    }
  }

  /** After an invalidation and any calls that follow it, a lease brings a value only if one of these
      calls stored it in that cell. */
  lemma InvalidatedValuesNeverComeBack(s: StorageState, calls: seq<Call>, now: Ticks)
    requires WellFormed(s) && AllAllowed(StorageSpec.Invalidate(s), calls)
    ensures var (t, r) := Lease(ApplyAll(StorageSpec.Invalidate(s), calls), now);
            r.Some? ==>
              r.value in t.cells
              && (t.cells[r.value].value.Some? ==> PutIn(calls, r.value, t.cells[r.value].value.value))
  {
    InvalidateIsWellFormed(s);
    InvalidateLeavesNone(s, []);
    CallsKeepNew(StorageSpec.Invalidate(s), [], calls);
    assert [] + calls == calls;
    var u := ApplyAll(StorageSpec.Invalidate(s), calls);
    if Lease(u, now).1.Some? {
      LeaseGrants(u, now);
      LeaseAddsNone(u, now);
    }
  }

  // ---------- the synchronous pool ----------

  /** The call of the storage that an event makes. */
  function CallsOf(s: SyncSystem, e: SyncEvent): seq<Call>
    requires SyncProtocol.Enabled(s, e)
  {
    match ActOf(s, e)
    case Some(Through(call)) => if call.CallLease? && s.pool.disabled then [] else [call]
    case _ => []
  }

  function AllCallsOf(s: SyncSystem, es: seq<SyncEvent>): seq<Call>
    requires SyncProtocol.CanRun(s, es)
    decreases |es|
  {
    if es == [] then [] else CallsOf(s, es[0]) + AllCallsOf(SyncProtocol.After(s, es[0]), es[1..])
  }

  lemma EventMakesCalls(s: SyncSystem, e: SyncEvent)
    requires HeldOnce(s) && SyncProtocol.Enabled(s, e)
    ensures |CallsOf(s, e)| <= 1
    ensures CallsOf(s, e) == [] ==> SyncProtocol.After(s, e).pool.storage == s.pool.storage
    ensures CallsOf(s, e) != [] ==>
              StorageSpec.Allowed(s.pool.storage, CallsOf(s, e)[0])
              && SyncProtocol.After(s, e).pool.storage == Apply(s.pool.storage, CallsOf(s, e)[0])
  {
    if e.Return? || e.Store? {
      assert s.held[e.k] in multiset(s.held);
    }
  }

  /** At most one call, made before others. */
  lemma CallBeforeCalls(s: StorageState, first: seq<Call>, rest: seq<Call>)
    requires |first| <= 1 && (first != [] ==> StorageSpec.Allowed(s, first[0]))
    requires AllAllowed(if first == [] then s else Apply(s, first[0]), rest)
    ensures AllAllowed(s, first + rest)
    ensures ApplyAll(s, first + rest) == ApplyAll(if first == [] then s else Apply(s, first[0]), rest)
  {
    if first == [] {
      assert first + rest == rest;
    } else {
      assert (first + rest)[1..] == rest;
    }
  }

  /** A run of the synchronous pool is a sequence of calls to its storage. */
  lemma {:induction false} RunMakesCalls(s: SyncSystem, es: seq<SyncEvent>)
    requires HeldOnce(s) && SyncProtocol.CanRun(s, es)
    ensures AllAllowed(s.pool.storage, AllCallsOf(s, es))
    ensures SyncProtocol.RunAll(s, es).pool.storage == ApplyAll(s.pool.storage, AllCallsOf(s, es))
    decreases |es|
  {
    if es != [] {
      EventMakesCalls(s, es[0]);
      EventKeepsHeld(s, es[0]);
      RunMakesCalls(SyncProtocol.After(s, es[0]), es[1..]);
      CallBeforeCalls(s.pool.storage, CallsOf(s, es[0]), AllCallsOf(SyncProtocol.After(s, es[0]), es[1..]));
    }
  }

  /** In every run of the synchronous pool, whatever call of get is granted a cell after an invalidation
      finds no value in it that was not stored there since, and none that has outlived its lifespan. */
  lemma SyncGrantsAreCurrent(s: SyncSystem, es: seq<SyncEvent>, now: Ticks)
    requires HeldOnce(s) && SyncProtocol.CanRun(SyncProtocol.After(s, InvalidateAll), es)
    ensures var start := SyncProtocol.After(s, InvalidateAll);
            var (p, answer) := Pass(SyncProtocol.RunAll(start, es).pool, now);
            answer.Some? && answer.value.Granted? ==>
              var c := answer.value.cell;
              c in p.storage.cells
              && (p.storage.cells[c].value.Some? ==>
                    && PutIn(AllCallsOf(start, es), c, p.storage.cells[c].value.value)
                    && LifeEnd(p.storage, c) > now)
  {
    var start := SyncProtocol.After(s, InvalidateAll);
    EventKeepsHeld(s, InvalidateAll);
    RunMakesCalls(start, es);
    InvalidatedValuesNeverComeBack(s.pool.storage, AllCallsOf(start, es), now);
    InvalidateIsWellFormed(s.pool.storage);
    CallsConserveCells(start.pool.storage, AllCallsOf(start, es));
    var u := SyncProtocol.RunAll(start, es).pool.storage;
    if Lease(u, now).1.Some? {
      LeaseGrants(u, now);
    }
  }
}
