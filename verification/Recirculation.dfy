/** Cells on their way from one lease to the next: they wait in the order in which they were given back,
    untouched, and bring what was stored in them. */
module Recirculation {
  import opened Wrappers
  import opened TimeTraits
  import opened StorageSpec
  import opened StorageLaws
  import opened HandleSpec
  import opened Protocol
  import opened Ownership
  import opened Grants

  // ---------- records of available cells ----------

  lemma CallLeavesAvailable(s: StorageState, now: Ticks, c: CellId)
    requires WellFormed(s) && c in s.available && c in Lease(s, now).0.available
    ensures c in s.cells && c in Lease(s, now).0.cells && Lease(s, now).0.cells[c] == s.cells[c]
  {
    InLists(s, c);
    LeaseKeepsCells(s, now);
  }

  lemma ReturnLeavesAvailable(s: System, h: nat, how: Strategy, at: Ticks, c: CellId)
    requires Owned(s) && InPool(s, h) && c in s.pool.storage.available
    ensures var t := AfterReturn(s, h, how, at).pool.storage;
            c in s.pool.storage.cells && c in t.cells && t.cells[c] == s.pool.storage.cells[c]
  {
    InLists(s.pool.storage, c);
    if s.handles[h].cell.Some? {
      HeldCellIsUsed(s, h);
      ReleaseKeepsCells(s.pool, how, s.handles[h].cell.value, at);
    }
  }

  lemma StoreLeavesAvailable(s: System, h: nat, v: Value, at: Ticks, c: CellId)
    requires Owned(s) && InPool(s, h) && c in s.pool.storage.available
    ensures var t := AfterStore(s, h, v, at).pool.storage;
            c in s.pool.storage.cells && c in t.cells && t.cells[c] == s.pool.storage.cells[c]
  {
    InLists(s.pool.storage, c);
    if s.handles[h].cell.Some? {
      HeldCellIsUsed(s, h);
    }
  }

  /** While a cell is available nothing changes its record. */
  lemma AvailableIsLeftAlone(s: System, e: Event, c: CellId)
    requires Owned(s) && Enabled(s, e) && c in s.pool.storage.available && c in After(s, e).pool.storage.available
    ensures c in s.pool.storage.cells && c in After(s, e).pool.storage.cells
    ensures After(s, e).pool.storage.cells[c] == s.pool.storage.cells[c]
  {
    InLists(s.pool.storage, c);
    match e
    case Call(ask, at) => if !s.pool.disabled { CallLeavesAvailable(s.pool.storage, at, c); }
    case Return(h, how, at) => ReturnLeavesAvailable(s, h, how, at, c);
    case Destroy(h, at) => ReturnLeavesAvailable(s, h, s.handles[h].strategy, at, c);
    case Assign(h, from, at) => ReturnLeavesAvailable(s, h, s.handles[h].strategy, at, c);
    case Store(h, v, at) => StoreLeavesAvailable(s, h, v, at, c);
    case InvalidateAll =>
    case _ => StorageSpared(s, e);
  }

  /** The cell is available through the whole run. */
  ghost predicate StaysIn(s: System, es: seq<Event>, c: CellId)
    requires CanRun(s, es)
    decreases |es|
  {
    c in s.pool.storage.available && (es == [] || StaysIn(After(s, es[0]), es[1..], c))
  }

  lemma {:induction false} RunLeavesAvailable(s: System, es: seq<Event>, c: CellId)
    requires Owned(s) && CanRun(s, es) && StaysIn(s, es, c)
    ensures Owned(RunAll(s, es)) && c in RunAll(s, es).pool.storage.available
    ensures c in s.pool.storage.cells && c in RunAll(s, es).pool.storage.cells
    ensures RunAll(s, es).pool.storage.cells[c] == s.pool.storage.cells[c]
    decreases |es|
  {
    InLists(s.pool.storage, c);
    if es != [] {
      var t := After(s, es[0]);
      EventKeepsOwned(s, es[0]);
      assert c in t.pool.storage.available;
      AvailableIsLeftAlone(s, es[0], c);
      RunLeavesAvailable(t, es[1..], c);
    }
  }

  // ---------- from a store to the next lease ----------

  /** A lease that takes an available cell brings its value, if the cell has not run out, and none if it has. */
  lemma LeaseBringsValue(s: StorageState, now: Ticks, c: CellId)
    requires WellFormed(s) && c in s.available && Lease(s, now).1 == Some(c)
    ensures c in s.cells && c in Lease(s, now).0.cells
    ensures Lease(s, now).0.cells[c].value == if s.cells[c].dropTime > now then s.cells[c].value else None
  {
    InLists(s, c);
    var k := FreshPosition(s, now);
    LeaseTakes(s, now, k);
    if k < |s.available| {
      LeaseAvailableRecords(s, now, k);
    } else {
      LeaseWastedRecords(s, now);
      var i :| 0 <= i < |s.available| && s.available[i] == c;
    }
  }

  lemma CallBringsValue(s: System, ask: Ask, at: Ticks, c: CellId)
    requires Owned(s) && c in s.pool.storage.available && c in AfterCall(s, ask, at).pool.storage.used
    ensures c in s.pool.storage.cells && c in AfterCall(s, ask, at).pool.storage.cells
    ensures AfterCall(s, ask, at).pool.storage.cells[c].value ==
            if s.pool.storage.cells[c].dropTime > at then s.pool.storage.cells[c].value else None
  {
    InLists(s.pool.storage, c);
    if Lease(s.pool.storage, at).1.Some? {
      LeaseGrants(s.pool.storage, at);
      assert c == Lease(s.pool.storage, at).1.value;
      LeaseBringsValue(s.pool.storage, at, c);
    } else {
      LeaseFailsIffAllUsed(s.pool.storage, at);
    }
  }

  lemma RecycledRecord(s: System, h: nat, at: Ticks)
    requires Owned(s) && InPool(s, h) && s.handles[h].cell.Some? && s.pool.queue.waiters == []
    requires s.handles[h].cell.value in AfterReturn(s, h, UseRecycle, at).pool.storage.available
    ensures var c, st, t := s.handles[h].cell.value, s.pool.storage, AfterReturn(s, h, UseRecycle, at).pool.storage;
            && c in t.cells && t.cells[c].value == st.cells[c].value
            && t.cells[c].dropTime == Min(Add(at, st.idleTimeout), LifeEnd(st, c))
  {
    var c, st := s.handles[h].cell.value, s.pool.storage;
    HeldCellIsUsed(s, h);
    RecycleDeadline(st, c, at);
    MinOfDeadlines(at, st.idleTimeout, st.cells[c].resetTime, st.lifespan);
    assert AfterReturn(s, h, UseRecycle, at).pool.storage == StorageSpec.Recycle(st, c, at);
  }

  /** Whatever a holder leaves in a cell that it recycles, with nobody waiting, is what the next lease of the
      cell brings, exactly if by then neither the idle timeout since the return nor the value's life is over;
      otherwise it brings nothing. In between the cell is merely available. */
  lemma RecycledValueComesBack(s: System, h: nat, at: Ticks, es: seq<Event>, ask: Ask, at': Ticks)
    requires Reachable(s) && Enabled(s, Return(h, UseRecycle, at))
    requires s.handles[h].cell.Some? && s.pool.queue.waiters == []
    requires CanRun(After(s, Return(h, UseRecycle, at)), es)
    requires StaysIn(After(s, Return(h, UseRecycle, at)), es, s.handles[h].cell.value)
    requires Enabled(RunAll(After(s, Return(h, UseRecycle, at)), es), Call(ask, at'))
    requires var u := RunAll(After(s, Return(h, UseRecycle, at)), es);
             s.handles[h].cell.value in After(u, Call(ask, at')).pool.storage.used
    ensures var c, st := s.handles[h].cell.value, s.pool.storage;
            var w := After(RunAll(After(s, Return(h, UseRecycle, at)), es), Call(ask, at')).pool.storage;
            && c in w.cells
            && w.cells[c].value ==
               if Add(at, st.idleTimeout) > at' && LifeEnd(st, c) > at' then st.cells[c].value else None
  {
    var c, t := s.handles[h].cell.value, AfterReturn(s, h, UseRecycle, at);
    EveryUsedCellHasOneHolder(s);
    ReturnKeepsOwned(s, h, UseRecycle, at);
    RecycledRecord(s, h, at);
    RunLeavesAvailable(t, es, c);
    CallBringsValue(RunAll(t, es), ask, at', c);
  }

  // ---------- the order of available cells ----------

  /** Available cells stand in the order in which they were given back. */
  ghost predicate InReturnOrder(s: System) {
    && (forall c :: c in s.returned ==> s.returned[c] <= s.now)
    && (forall c :: c in s.pool.storage.available ==> c in s.returned)
    && (forall i, j :: 0 <= i < j < |s.pool.storage.available| ==>
          && s.pool.storage.available[i] in s.returned && s.pool.storage.available[j] in s.returned
          && s.returned[s.pool.storage.available[i]] <= s.returned[s.pool.storage.available[j]])
  }

  lemma SuffixKeepsOrder(s: System, t: System, k: nat)
    requires InReturnOrder(s) && k <= |s.pool.storage.available|
    requires t.pool.storage.available == s.pool.storage.available[k..] && t.returned == s.returned && t.now >= s.now
    ensures InReturnOrder(t)
  {
    forall c | c in t.pool.storage.available ensures c in t.returned {
      assert c in s.pool.storage.available;
    }
  }

  lemma CallKeepsOrder(s: System, ask: Ask, at: Ticks)
    requires InReturnOrder(s) && Owned(s) && at >= s.now
    ensures InReturnOrder(AfterCall(s, ask, at))
  {
    var st, t := s.pool.storage, AfterCall(s, ask, at);
    if s.pool.disabled {
      SuffixKeepsOrder(s, t, 0);
    } else {
      var k := FreshPosition(st, at);
      LeaseOrder(st, at, k);
      SuffixKeepsOrder(s, t, if k < |st.available| then k + 1 else k);
    }
  }

  lemma AppendKeepsOrder(s: System, t: System, c: CellId)
    requires InReturnOrder(s) && c !in s.pool.storage.available && t.now >= s.now
    requires t.pool.storage.available == s.pool.storage.available + [c] && t.returned == s.returned[c := t.now]
    ensures InReturnOrder(t)
  {
    var a := t.pool.storage.available;
    forall i, j | 0 <= i < j < |a| ensures a[i] in t.returned && a[j] in t.returned && t.returned[a[i]] <= t.returned[a[j]] {
      assert a[i] in s.pool.storage.available;
    }
  }

  /** Only the cell given back counts anew. */
  lemma SameKeepsOrder(s: System, t: System, c: CellId)
    requires InReturnOrder(s) && c !in s.pool.storage.available && t.now >= s.now
    requires t.pool.storage.available == s.pool.storage.available && t.returned == s.returned[c := t.now]
    ensures InReturnOrder(t)
  {
    assert forall i :: 0 <= i < |s.pool.storage.available| ==> s.pool.storage.available[i] in s.pool.storage.available;
  }

  lemma ReturnKeepsOrder(s: System, h: nat, how: Strategy, at: Ticks)
    requires InReturnOrder(s) && Owned(s) && InPool(s, h) && at >= s.now
    ensures InReturnOrder(AfterReturn(s, h, how, at))
  {
    var t := AfterReturn(s, h, how, at);
    if s.handles[h].cell.None? {
      SuffixKeepsOrder(s, t, 0);
    } else {
      var c, st := s.handles[h].cell.value, s.pool.storage;
      HeldCellIsUsed(s, h);
      InLists(st, c);
      if s.pool.queue.waiters == [] && how == UseRecycle && IsValid(st, c, at) {
        RecycledIsBehind(st, c, at);
        AppendKeepsOrder(s, t, c);
      } else {
        SameKeepsOrder(s, t, c);
      }
    }
  }

  lemma EventKeepsOrder(s: System, e: Event)
    requires InReturnOrder(s) && Owned(s) && Enabled(s, e)
    ensures InReturnOrder(After(s, e))
  {
    match e
    case Call(ask, at) => CallKeepsOrder(s, ask, at);
    case Return(h, how, at) => ReturnKeepsOrder(s, h, how, at);
    case Destroy(h, at) => ReturnKeepsOrder(s, h, s.handles[h].strategy, at);
    case Assign(h, from, at) => AssignKeepsOrder(s, h, from, at);
    case Store(h, v, at) => StoreKeepsOrder(s, h, v, at);
    case InvalidateAll => SuffixKeepsOrder(s, AfterInvalidate(s), |s.pool.storage.available|);
    case _ => SparingKeepsOrder(s, e);
  }

  lemma AssignKeepsOrder(s: System, h: nat, from: nat, at: Ticks)
    requires InReturnOrder(s) && Owned(s) && InPool(s, h) && from < |s.handles| && at >= s.now
    ensures InReturnOrder(AfterAssign(s, h, from, at))
  {
    ReturnKeepsOrder(s, h, s.handles[h].strategy, at);
    SuffixKeepsOrder(AfterReturn(s, h, s.handles[h].strategy, at), AfterAssign(s, h, from, at), 0);
  }

  lemma StoreKeepsOrder(s: System, h: nat, v: Value, at: Ticks)
    requires InReturnOrder(s) && InPool(s, h) && at >= s.now
    ensures InReturnOrder(AfterStore(s, h, v, at))
  {
    SuffixKeepsOrder(s, AfterStore(s, h, v, at), 0);
  }

  lemma SparingKeepsOrder(s: System, e: Event)
    requires InReturnOrder(s) && Enabled(s, e) && SparesStorage(e)
    ensures InReturnOrder(After(s, e))
  {
    StorageSpared(s, e);
    ClockGoesOn(s, e);
    SuffixKeepsOrder(s, After(s, e), 0);
  }

  lemma ClockGoesOn(s: System, e: Event)
    requires Enabled(s, e) && SparesStorage(e)
    ensures After(s, e).now >= s.now
  {
  }

  lemma {:induction false} RunsKeepOrder(s: System, es: seq<Event>)
    requires InReturnOrder(s) && Owned(s) && CanRun(s, es)
    ensures InReturnOrder(RunAll(s, es))
    decreases |es|
  {
    if es != [] {
      EventKeepsOrder(s, es[0]);
      EventKeepsOwned(s, es[0]);
      RunsKeepOrder(After(s, es[0]), es[1..]);
    }
  }

  /** In every reachable state the available cells stand in the order in which they were given back. */
  lemma AvailableInReturnOrder(s: System)
    requires Reachable(s)
    ensures InReturnOrder(s)
  {
    var stock, queueCapacity, idle, life, now, es :| Reaches(stock, queueCapacity, idle, life, now, es, s);
    StartIsOwned(stock, queueCapacity, idle, life, now);
    StartInOrder(stock, queueCapacity, idle, life, now);
    RunsKeepOrder(Start(stock, queueCapacity, idle, life, now), es);
  }

  lemma StartInOrder(stock: Stock, queueCapacity: nat, idle: Ticks, life: Ticks, now: Ticks)
    ensures InReturnOrder(Start(stock, queueCapacity, idle, life, now))
  {
  }
}
