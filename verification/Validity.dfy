/** How long the value in a leased cell is good, in terms a caller knows. Through all the hands a cell
    goes between two leases, it is marked for destruction exactly if the pool has been invalidated since
    the first of them. */
module Validity {
  import opened TimeTraits
  import opened Sequences
  import opened StorageSpec
  import opened PoolSpec
  import opened HandleSpec
  import opened Protocol
  import opened Ownership

  /** The cell stays in use through the whole run: it is handed from holder to holder and never put back. */
  ghost predicate StaysOut(s: System, es: seq<Event>, c: CellId)
    requires CanRun(s, es)
    decreases |es|
  {
    c in s.pool.storage.used && (es == [] || StaysOut(After(s, es[0]), es[1..], c))
  }

  ghost predicate IsFlagged(s: StorageState, c: CellId) {
    c in s.cells && s.cells[c].wasteOnRecycle
  }

  // ---------- one event ----------

  lemma StorageReturnTakesOut(s: StorageState, c: CellId, at: Ticks)
    requires WellFormed(s) && c in s.used && c in s.cells
    ensures c !in StorageSpec.Recycle(s, c, at).used && c !in StorageSpec.Waste(s, c).used
  {
    RecycleIsWellFormed(s, c, at);
    WasteIsWellFormed(s, c);
    var t := StorageSpec.Waste(s, c);
    InLists(t, c);
    assert t.wasted[|s.wasted|] == c;
    InLists(StorageSpec.Recycle(s, c, at), c);
    if IsValid(s, c, at) {
      assert StorageSpec.Recycle(s, c, at).available[|s.available|] == c;
    }
  }

  /** A cell that is given back and is still in use has been handed on, its flag as it was. */
  lemma ReleaseKeepsFlag(p: PoolState, how: Strategy, c: CellId, at: Ticks)
    requires WellFormed(p.storage) && c in p.storage.used && c in p.storage.cells
    requires c in Release(p, how, c, at).0.storage.used
    ensures IsFlagged(Release(p, how, c, at).0.storage, c) == IsFlagged(p.storage, c)
  {
    StorageReturnTakesOut(p.storage, c, at);
  }

  lemma ReturnKeepsFlag(s: System, h: nat, how: Strategy, at: Ticks, c: CellId)
    requires Owned(s) && InPool(s, h) && c in s.pool.storage.used && c in AfterReturn(s, h, how, at).pool.storage.used
    ensures IsFlagged(AfterReturn(s, h, how, at).pool.storage, c) == IsFlagged(s.pool.storage, c)
  {
    InLists(s.pool.storage, c);
    if HandleHolds(s, h, c) {
      ReleaseKeepsFlag(s.pool, how, c, at);
    } else {
      ReturnLeavesAlone(s, h, how, at, c);
    }
  }

  lemma StoreKeepsFlag(s: System, h: nat, v: Value, at: Ticks, c: CellId)
    requires InPool(s, h)
    ensures IsFlagged(AfterStore(s, h, v, at).pool.storage, c) == IsFlagged(s.pool.storage, c)
  {
  }

  lemma EventFlags(s: System, e: Event, c: CellId)
    requires Owned(s) && Enabled(s, e) && c in s.pool.storage.used && c in After(s, e).pool.storage.used
    ensures IsFlagged(After(s, e).pool.storage, c) == (IsFlagged(s.pool.storage, c) || e.InvalidateAll?)
  {
    InLists(s.pool.storage, c);
    match e
    case Return(h, how, at) => ReturnKeepsFlag(s, h, how, at, c);
    case Destroy(h, at) => ReturnKeepsFlag(s, h, s.handles[h].strategy, at, c);
    case Assign(h, from, at) => ReturnKeepsFlag(s, h, s.handles[h].strategy, at, c);
    case Store(h, v, at) => StoreKeepsFlag(s, h, v, at, c);
    case Call(ask, at) => CallLeavesAlone(s, ask, at, c);
    case InvalidateAll =>
    case _ => StorageSpared(s, e);
  }

  // ---------- between two leases ----------

  lemma {:induction false} RunFlags(s: System, es: seq<Event>, c: CellId)
    requires Owned(s) && CanRun(s, es) && StaysOut(s, es, c)
    ensures Owned(RunAll(s, es)) && c in RunAll(s, es).pool.storage.used
    ensures IsFlagged(RunAll(s, es).pool.storage, c) <==> IsFlagged(s.pool.storage, c) || InvalidateAll in es
    decreases |es|
  {
    if es != [] {
      var t := After(s, es[0]);
      EventFlags(s, es[0], c);
      EventKeepsOwned(s, es[0]);
      RunFlags(t, es[1..], c);
      assert InvalidateAll in es <==> es[0] == InvalidateAll || InvalidateAll in es[1..];
    }
  }

  /** A call of get has just leased the cell. */
  ghost predicate Leased(s: System, e: Event, t: System, c: CellId) {
    Leads(s, e, t) && e.Call? && c !in s.pool.storage.used && c in t.pool.storage.used
  }

  lemma LeaseLowersFlag(s: System, e: Event, t: System, c: CellId)
    requires Owned(s) && Leased(s, e, t, c)
    ensures !IsFlagged(t.pool.storage, c)
  {
    if !s.pool.disabled {
      if Lease(s.pool.storage, e.at).1.Some? {
        LeaseGrants(s.pool.storage, e.at);
      } else {
        LeaseFailsIffAllUsed(s.pool.storage, e.at);
      }
    }
  }

  // ---------- every cell in use was leased ----------

  /** Event k of the run leases the cell, which stays out from then on. */
  ghost predicate OutSince(s: System, es: seq<Event>, c: CellId, k: nat)
    requires CanRun(s, es)
    decreases |es|
  {
    && k < |es|
    && (if k > 0 then OutSince(After(s, es[0]), es[1..], c, k - 1)
        else Leased(s, es[0], After(s, es[0]), c) && StaysOut(After(s, es[0]), es[1..], c))
  }

  lemma ReleaseTakesNoneOut(p: PoolState, how: Strategy, d: CellId, at: Ticks)
    requires d in p.storage.used && d in p.storage.cells
    ensures forall c :: c in Release(p, how, d, at).0.storage.used ==> c in p.storage.used
  {
    WithoutIsPart(p.storage.used, d);
  }

  lemma ReturnTakesNoneOut(s: System, h: nat, how: Strategy, at: Ticks, c: CellId)
    requires Owned(s) && InPool(s, h) && c in AfterReturn(s, h, how, at).pool.storage.used
    ensures c in s.pool.storage.used
  {
    if s.handles[h].cell.Some? {
      HeldCellIsUsed(s, h);
      ReleaseTakesNoneOut(s.pool, how, s.handles[h].cell.value, at);
    }
  }

  lemma OnlyCallsTakeOut(s: System, e: Event, c: CellId)
    requires Owned(s) && Enabled(s, e) && !e.Call? && c in After(s, e).pool.storage.used
    ensures c in s.pool.storage.used
  {
    match e
    case Return(h, how, at) => ReturnTakesNoneOut(s, h, how, at, c);
    case Destroy(h, at) => ReturnTakesNoneOut(s, h, s.handles[h].strategy, at, c);
    case Assign(h, from, at) => ReturnTakesNoneOut(s, h, s.handles[h].strategy, at, c);
    case Store(h, v, at) =>
    case InvalidateAll =>
    case _ => StorageSpared(s, e);
  }

  lemma {:induction false} LastLease(s: System, es: seq<Event>, c: CellId) returns (k: nat)
    requires Owned(s) && CanRun(s, es) && c in RunAll(s, es).pool.storage.used
    ensures StaysOut(s, es, c) || OutSince(s, es, c, k)
    decreases |es|
  {
    k := 0;
    if es != [] {
      var t := After(s, es[0]);
      EventKeepsOwned(s, es[0]);
      var j := LastLease(t, es[1..], c);
      if !StaysOut(t, es[1..], c) {
        k := j + 1;
      } else if c !in s.pool.storage.used && !es[0].Call? {
        OnlyCallsTakeOut(s, es[0], c);
      }
    }
  }

  lemma {:induction false} FlagSince(s: System, es: seq<Event>, c: CellId, k: nat)
    requires Owned(s) && CanRun(s, es) && OutSince(s, es, c, k)
    ensures IsFlagged(RunAll(s, es).pool.storage, c) <==> InvalidateAll in es[k + 1..]
    decreases |es|
  {
    var t := After(s, es[0]);
    EventKeepsOwned(s, es[0]);
    if k > 0 {
      FlagSince(t, es[1..], c, k - 1);
      assert es[1..][k..] == es[k + 1..];
    } else {
      LeaseLowersFlag(s, es[0], t, c);
      RunFlags(t, es[1..], c);
    }
  }

  /** In every run of a new pool, a cell in use at the end was leased by some call of get and has been out
      since, and its flag is up exactly if the pool has been invalidated since that call. */
  lemma UsedMeansLeased(stock: Stock, queueCapacity: nat, idle: Ticks, life: Ticks, now: Ticks, es: seq<Event>, c: CellId)
    returns (k: nat)
    requires CanRun(Start(stock, queueCapacity, idle, life, now), es)
    requires c in RunAll(Start(stock, queueCapacity, idle, life, now), es).pool.storage.used
    ensures OutSince(Start(stock, queueCapacity, idle, life, now), es, c, k)
    ensures IsFlagged(RunAll(Start(stock, queueCapacity, idle, life, now), es).pool.storage, c) <==>
              InvalidateAll in es[k + 1..]
  {
    var s := Start(stock, queueCapacity, idle, life, now);
    StartIsOwned(stock, queueCapacity, idle, life, now);
    k := LastLease(s, es, c);
    assert c !in s.pool.storage.used;
    FlagSince(s, es, c, k);
  }

  // ---------- the value ----------

  /** Recycling through handle h, to the storage or to the first waiter, leaves the value in the cell. */
  ghost predicate Survives(s: System, h: nat, at: Ticks)
    requires Enabled(s, Return(h, UseRecycle, at)) && s.handles[h].cell.Some?
  {
    var c := s.handles[h].cell.value;
    var t := After(s, Return(h, UseRecycle, at)).pool.storage;
    c in s.pool.storage.cells && c in t.cells && t.cells[c].value == s.pool.storage.cells[c].value
  }

  lemma SurvivesIffValid(s: System, h: nat, at: Ticks)
    requires Enabled(s, Return(h, UseRecycle, at)) && s.handles[h].cell.Some?
    requires s.pool.storage.cells[s.handles[h].cell.value].value.Some?
    ensures Survives(s, h, at) <==> IsValid(s.pool.storage, s.handles[h].cell.value, at)
  {
    var c := s.handles[h].cell.value;
    var t := AfterReturn(s, h, UseRecycle, at);
    assert t.pool == PoolSpec.Recycle(s.pool, c, at).0;
  }

  /** Whatever value a holder has, its own or one it was handed, it is kept when the holder recycles the
      cell exactly if the pool has not been invalidated since the call of get that leased the cell, through
      however many hands it has gone, and the value's life is not over. */
  lemma ValueKeptIff(s: System, es: seq<Event>, k: nat, h: nat, at: Ticks)
    requires Reachable(s) && CanRun(s, es)
    requires Enabled(RunAll(s, es), Return(h, UseRecycle, at)) && RunAll(s, es).handles[h].cell.Some?
    requires RunAll(s, es).pool.storage.cells[RunAll(s, es).handles[h].cell.value].value.Some?
    requires OutSince(s, es, RunAll(s, es).handles[h].cell.value, k)
    ensures var t := RunAll(s, es);
            Survives(t, h, at) <==>
              InvalidateAll !in es[k + 1..] && LifeEnd(t.pool.storage, t.handles[h].cell.value) > at
  {
    var t := RunAll(s, es);
    EveryUsedCellHasOneHolder(s);
    FlagSince(s, es, t.handles[h].cell.value, k);
    SurvivesIffValid(t, h, at);
  }
}
