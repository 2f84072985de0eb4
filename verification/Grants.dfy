/** What a granted cell carries. A value stored before an invalidation is never part of a lease or
    hand-off decided after it, and a value that has outlived its lifespan or its idle time is never
    part of one either. */
module Grants {
  import opened TimeTraits
  import opened Sequences
  import opened StorageSpec
  import opened PoolSpec
  import opened HandleSpec
  import opened Protocol
  import opened Ownership

  /** A cell among the available ones: its value is of this epoch, and its deadline counts from
      the moment it came back. */
  ghost predicate AvailableIsCurrent(s: System, c: CellId) {
    && c in s.pool.storage.cells && c in s.birth && c in s.returned
    && (s.pool.storage.cells[c].value.Some? ==> s.birth[c] == s.epoch)
    && s.pool.storage.cells[c].dropTime <= Add(s.returned[c], s.pool.storage.idleTimeout)
  }

  /** A cell in use: a value of an earlier epoch is flagged. */
  ghost predicate UsedIsCurrentOrFlagged(s: System, c: CellId) {
    && c in s.pool.storage.cells && c in s.birth
    && (s.pool.storage.cells[c].value.Some? && !s.pool.storage.cells[c].wasteOnRecycle ==> s.birth[c] == s.epoch)
  }

  ghost predicate Current(s: System) {
    && s.birth.Keys == s.pool.storage.cells.Keys
    && (forall c :: c in s.pool.storage.available ==> AvailableIsCurrent(s, c))
    && (forall c :: c in s.pool.storage.used ==> UsedIsCurrentOrFlagged(s, c))
  }

  // ---------- one event at a time ----------

  lemma LeaseKeepsCells(s: StorageState, at: Ticks)
    requires WellFormed(s)
    ensures var (t, r) := Lease(s, at);
            && t.cells.Keys == s.cells.Keys && t.idleTimeout == s.idleTimeout && t.lifespan == s.lifespan
            && (forall c :: c in t.available ==> c in s.available && c in s.cells && c in t.cells && t.cells[c] == s.cells[c])
            && (forall c :: c in t.used ==>
                  && c in s.cells && c in t.cells
                  && (t.cells[c].value.Some? ==> t.cells[c] == s.cells[c] && (c in s.used || c in s.available)))
  {
    LeaseIsWellFormed(s, at);
    InListsAll(s);
    if Lease(s, at).1.Some? {
      LeaseGrants(s, at);
    } else {
      LeaseFailsIffAllUsed(s, at);
    }
  }

  lemma CallKeepsCurrent(s: System, ask: Ask, at: Ticks)
    requires Owned(s) && Current(s)
    ensures Current(AfterCall(s, ask, at))
  {
    var st := s.pool.storage;
    var t := AfterCall(s, ask, at);
    if !s.pool.disabled {
      LeaseKeepsCells(st, at);
      forall c | c in t.pool.storage.available ensures AvailableIsCurrent(t, c) {
        assert AvailableIsCurrent(s, c);
      }
      forall c | c in t.pool.storage.used ensures UsedIsCurrentOrFlagged(t, c) {
        if t.pool.storage.cells[c].value.Some? {
          if c in st.used {
            assert UsedIsCurrentOrFlagged(s, c);
          } else {
            assert AvailableIsCurrent(s, c);
          }
        }
      }
    }
  }

  /** What returning cell c may do to the records. */
  ghost predicate ReleasedOne(s: StorageState, t: StorageState, c: CellId, at: Ticks)
    requires c in s.cells && t.cells.Keys == s.cells.Keys
  {
    && t.idleTimeout == s.idleTimeout
    && (forall d :: d in t.cells && d != c ==> t.cells[d] == s.cells[d])
    && (forall d :: d in t.used ==> d in s.used)
    && (forall d :: d in t.available && d != c ==> d in s.available)
    && (c in t.available ==>
          && t.cells[c].value == s.cells[c].value && !s.cells[c].wasteOnRecycle
          && t.cells[c].dropTime <= Add(at, t.idleTimeout))
    && (t.cells[c].value.Some? && !t.cells[c].wasteOnRecycle ==>
          t.cells[c].value == s.cells[c].value && !s.cells[c].wasteOnRecycle)
  }

  lemma WasteReleases(s: StorageState, c: CellId, at: Ticks)
    requires WellFormed(s) && c in s.used && c in s.cells
    ensures StorageSpec.Waste(s, c).cells.Keys == s.cells.Keys && ReleasedOne(s, StorageSpec.Waste(s, c), c, at)
    ensures Clear(s, c).cells.Keys == s.cells.Keys && ReleasedOne(s, Clear(s, c), c, at)
  {
    InLists(s, c);
    WithoutIsPart(s.used, c);
    assert Clear(s, c).cells.Keys == s.cells.Keys;
  }

  lemma RecycleReleases(s: StorageState, c: CellId, at: Ticks)
    requires WellFormed(s) && c in s.used && c in s.cells && IsValid(s, c, at)
    ensures StorageSpec.Recycle(s, c, at).cells.Keys == s.cells.Keys
    ensures ReleasedOne(s, StorageSpec.Recycle(s, c, at), c, at)
  {
    WithoutIsPart(s.used, c);
    assert StorageSpec.Recycle(s, c, at).cells.Keys == s.cells.Keys;
  }

  lemma ReleaseKeepsCells(p: PoolState, how: Strategy, c: CellId, at: Ticks)
    requires WellFormed(p.storage) && c in p.storage.used && c in p.storage.cells
    ensures Release(p, how, c, at).0.storage.cells.Keys == p.storage.cells.Keys
    ensures ReleasedOne(p.storage, Release(p, how, c, at).0.storage, c, at)
  {
    WasteReleases(p.storage, c, at);
    if how == UseRecycle && IsValid(p.storage, c, at) {
      RecycleReleases(p.storage, c, at);
      InLists(p.storage, c);
    }
  }

  lemma ReturnKeepsCurrent(s: System, h: nat, how: Strategy, at: Ticks)
    requires Owned(s) && Current(s) && InPool(s, h)
    ensures Current(AfterReturn(s, h, how, at))
  {
    if s.handles[h].cell.Some? {
      var c := s.handles[h].cell.value;
      var t := AfterReturn(s, h, how, at);
      HeldCellIsUsed(s, h);
      ReleaseKeepsCells(s.pool, how, c, at);
      assert UsedIsCurrentOrFlagged(s, c);
      forall d | d in t.pool.storage.available ensures AvailableIsCurrent(t, d) {
        assert d != c ==> AvailableIsCurrent(s, d);
      }
      forall d | d in t.pool.storage.used ensures UsedIsCurrentOrFlagged(t, d) {
        assert UsedIsCurrentOrFlagged(s, d);
      }
    }
  }

  lemma StoreKeepsCurrent(s: System, h: nat, v: Value, at: Ticks)
    requires Owned(s) && Current(s) && InPool(s, h)
    ensures Current(AfterStore(s, h, v, at))
  {
    if s.handles[h].cell.Some? {
      var t := AfterStore(s, h, v, at);
      HeldCellIsUsed(s, h);
      InLists(s.pool.storage, s.handles[h].cell.value);
      assert t.pool.storage.cells.Keys == s.pool.storage.cells.Keys;
      forall c | c in t.pool.storage.available ensures AvailableIsCurrent(t, c) {
        assert AvailableIsCurrent(s, c);
      }
      forall c | c in t.pool.storage.used ensures UsedIsCurrentOrFlagged(t, c) {
        assert UsedIsCurrentOrFlagged(s, c);
      }
    }
  }

  lemma InvalidateKeepsCurrent(s: System)
    requires Owned(s) && Current(s)
    ensures Current(AfterInvalidate(s))
  {
    var t := AfterInvalidate(s);
    InvalidateIsWellFormed(s.pool.storage);
    forall c | c in t.pool.storage.used ensures UsedIsCurrentOrFlagged(t, c) {
      assert UsedIsCurrentOrFlagged(s, c);
    }
  }

  lemma SameCellsKeepCurrent(s: System, t: System)
    requires Current(s)
    requires t.pool.storage == s.pool.storage && t.birth == s.birth && t.returned == s.returned && t.epoch == s.epoch
    ensures Current(t)
  {
    forall c | c in t.pool.storage.available ensures AvailableIsCurrent(t, c) {
      assert AvailableIsCurrent(s, c);
    }
    forall c | c in t.pool.storage.used ensures UsedIsCurrentOrFlagged(t, c) {
      assert UsedIsCurrentOrFlagged(s, c);
    }
  }

  lemma AssignKeepsCurrent(s: System, h: nat, from: nat, at: Ticks)
    requires Owned(s) && Current(s) && InPool(s, h) && from < |s.handles|
    ensures Current(AfterAssign(s, h, from, at))
  {
    ReturnKeepsCurrent(s, h, s.handles[h].strategy, at);
    SameCellsKeepCurrent(AfterReturn(s, h, s.handles[h].strategy, at), AfterAssign(s, h, from, at));
  }

  lemma EventKeepsCurrent(s: System, e: Event)
    requires Owned(s) && Current(s) && Enabled(s, e)
    ensures Current(After(s, e))
  {
    match e
    case Call(ask, at) => CallKeepsCurrent(s, ask, at);
    case Return(h, how, at) => ReturnKeepsCurrent(s, h, how, at);
    case Destroy(h, at) => ReturnKeepsCurrent(s, h, s.handles[h].strategy, at);
    case Assign(h, from, at) => AssignKeepsCurrent(s, h, from, at);
    case Store(h, v, at) => StoreKeepsCurrent(s, h, v, at);
    case InvalidateAll => InvalidateKeepsCurrent(s);
    case _ =>
      StorageSpared(s, e);
      SameCellsKeepCurrent(s, After(s, e));
  }

  // ---------- every run ----------

  lemma StartIsCurrent(stock: Stock, queueCapacity: nat, idle: Ticks, life: Ticks, now: Ticks)
    ensures Current(Start(stock, queueCapacity, idle, life, now))
  {
  }

  lemma {:induction false} RunsKeepCurrent(s: System, es: seq<Event>)
    requires Owned(s) && Current(s) && CanRun(s, es)
    ensures Owned(RunAll(s, es)) && Current(RunAll(s, es))
    decreases |es|
  {
    if es != [] {
      EventKeepsOwned(s, es[0]);
      EventKeepsCurrent(s, es[0]);
      RunsKeepCurrent(After(s, es[0]), es[1..]);
    }
  }

  /** Just after the event that posted it, completion w grants a cell in use; if that cell carries
      a value, the value was stored after the last invalidation and is within its lifespan; and if
      the cell was leased from the available ones, it had not been idle for too long. */
  ghost predicate GrantsCurrentValue(s: System, t: System, w: Completion) {
    w.outcome.Granted? ==>
      var c := w.outcome.cell;
      && c in t.pool.storage.used && c in t.pool.storage.cells && c in t.birth
      && (t.pool.storage.cells[c].value.Some? ==>
            && t.birth[c] == t.epoch
            && LifeEnd(t.pool.storage, c) > t.now
            && (c in s.pool.storage.available ==>
                  c in s.returned && Add(s.returned[c], s.pool.storage.idleTimeout) > t.now))
  }

  lemma CallGrantsCurrent(s: System, ask: Ask, at: Ticks)
    requires Owned(s) && Current(s)
    ensures var c := GetBegin(s.pool, |s.asked|, ask.ctx, ask.wait, at).1;
            c.Some? ==> GrantsCurrentValue(s, AfterCall(s, ask, at), c.value)
  {
    var w := GetBegin(s.pool, |s.asked|, ask.ctx, ask.wait, at).1;
    if w.Some? && w.value.outcome.Granted? {
      LeaseGrants(s.pool.storage, at);
      LeaseKeepsCells(s.pool.storage, at);
      var c := w.value.outcome.cell;
      if AfterCall(s, ask, at).pool.storage.cells[c].value.Some? {
        assert AvailableIsCurrent(s, c);
      }
    }
  }

  lemma ReturnGrantsCurrent(s: System, h: nat, how: Strategy, at: Ticks)
    requires Owned(s) && Current(s) && InPool(s, h) && s.handles[h].cell.Some?
    ensures var w := Release(s.pool, how, s.handles[h].cell.value, at).1;
            w.Some? ==> GrantsCurrentValue(s, AfterReturn(s, h, how, at), w.value)
  {
    var c := s.handles[h].cell.value;
    HeldCellIsUsed(s, h);
    InLists(s.pool.storage, c);
    assert UsedIsCurrentOrFlagged(s, c);
  }

  /** In every run, every completion an event posts grants only a current value. */
  lemma EveryGrantIsCurrent(s: System, e: Event, t: System, i: nat)
    requires Reachable(s) && Leads(s, e, t) && |s.log| <= i < |t.log|
    ensures GrantsCurrentValue(s, t, t.log[i])
  {
    var stock, queueCapacity, idle, life, now, es :| Reaches(stock, queueCapacity, idle, life, now, es, s);
    var s0 := Start(stock, queueCapacity, idle, life, now);
    StartIsOwned(stock, queueCapacity, idle, life, now);
    StartIsCurrent(stock, queueCapacity, idle, life, now);
    RunsKeepCurrent(s0, es);
    GrantIsCurrent(s, e, i);
  }

  lemma GrantIsCurrent(s: System, e: Event, i: nat)
    requires Owned(s) && Current(s) && Enabled(s, e) && |s.log| <= i < |After(s, e).log|
    ensures GrantsCurrentValue(s, After(s, e), After(s, e).log[i])
  {
    match e
    case Call(ask, at) => CallGrantsCurrent(s, ask, at);
    case Return(h, how, at) => ReturnGrantsCurrent(s, h, how, at);
    case Destroy(h, at) => ReturnGrantsCurrent(s, h, s.handles[h].strategy, at);
    case Assign(h, from, at) => ReturnGrantsCurrent(s, h, s.handles[h].strategy, at);
    case _ => OthersGrantNothing(s, e);
  }
}
