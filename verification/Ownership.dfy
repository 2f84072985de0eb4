/** Who holds the cells in use. Every one of them is held by exactly one usable handle or by exactly
    one handler that has been posted and not run yet, whatever the interleaving. */
module Ownership {
  import opened Wrappers
  import opened TimeTraits
  import opened Sequences
  import opened StorageSpec
  import opened PoolSpec
  import opened HandleSpec
  import opened Protocol

  // ---------- claims on cells ----------

  /** What each handle holds. */
  function Held(hs: seq<HandleState>): (r: seq<Option<CellId>>)
    ensures |r| == |hs| && forall i :: 0 <= i < |hs| ==> r[i] == hs[i].cell
  {
    Map((h: HandleState) => h.cell, hs)
  }

  function Grant(c: Completion): Option<CellId> {
    if c.outcome.Granted? then Some(c.outcome.cell) else None
  }

  /** What each completion brings. */
  function Promised(cs: seq<Completion>): (r: seq<Option<CellId>>)
    ensures |r| == |cs| && forall i :: 0 <= i < |cs| ==> r[i] == Grant(cs[i])
  {
    Map(Grant, cs)
  }

  /** Every occurrence in the used list is matched by one holder, and every holder by one. */
  ghost predicate Balanced(used: seq<CellId>, handles: seq<HandleState>, pending: seq<Completion>) {
    forall c :: multiset(used)[c] == Count(Held(handles), Some(c)) + Count(Promised(pending), Some(c))
  }

  ghost predicate Owned(s: System) {
    WellFormed(s.pool.storage) && Balanced(s.pool.storage.used, s.handles, s.pending)
  }

  lemma BalancedFailures(used: seq<CellId>, hs: seq<HandleState>, cs: seq<Completion>, more: seq<Completion>)
    requires Balanced(used, hs, cs)
    requires forall i :: 0 <= i < |more| ==> more[i].outcome.Failed?
    ensures Balanced(used, hs, cs + more)
  {
    assert Promised(cs + more) == Promised(cs) + Promised(more);
    forall c ensures Count(Promised(cs + more), Some(c)) == Count(Promised(cs), Some(c)) {
      CountConcat(Promised(cs), Promised(more), Some(c));
      CountZero(Promised(more), Some(c));
    }
  }

  /** A cell is leased and the completion that brings it is posted. */
  lemma BalancedGrant(used: seq<CellId>, hs: seq<HandleState>, cs: seq<Completion>, w: Completion)
    requires Balanced(used, hs, cs) && w.outcome.Granted?
    ensures Balanced(used + [w.outcome.cell], hs, cs + [w])
  {
    assert Promised(cs + [w]) == Promised(cs) + [Grant(w)];
    forall c ensures Count(Promised(cs + [w]), Some(c)) == Count(Promised(cs), Some(c)) + One(Grant(w), Some(c)) {
      CountAppend(Promised(cs), Grant(w), Some(c));
    }
  }

  /** A handler runs and its cell, if any, becomes a handle's. */
  lemma BalancedRun(used: seq<CellId>, hs: seq<HandleState>, cs: seq<Completion>, k: nat, h: HandleState)
    requires Balanced(used, hs, cs) && k < |cs| && h.cell == Grant(cs[k])
    ensures Balanced(used, hs + [h], Cut(cs, k))
  {
    assert Held(hs + [h]) == Held(hs) + [h.cell];
    assert Promised(Cut(cs, k)) == Cut(Promised(cs), k);
    forall c
      ensures Count(Held(hs + [h]), Some(c)) == Count(Held(hs), Some(c)) + One(h.cell, Some(c))
      ensures Count(Promised(Cut(cs, k)), Some(c)) + One(h.cell, Some(c)) == Count(Promised(cs), Some(c))
    {
      CountAppend(Held(hs), h.cell, Some(c));
      CountCut(Promised(cs), k, Some(c));
    }
  }

  /** A handle lets go of its cell, which leaves the used list. */
  lemma BalancedReturn(used: seq<CellId>, used': seq<CellId>, hs: seq<HandleState>, cs: seq<Completion>, h: nat)
    requires Balanced(used, hs, cs) && h < |hs| && hs[h].cell.Some?
    requires multiset(used') + multiset{hs[h].cell.value} == multiset(used)
    ensures Balanced(used', hs[h := hs[h].(cell := None)], cs)
  {
    assert Held(hs[h := hs[h].(cell := None)]) == Held(hs)[h := None];
    forall c ensures multiset(used')[c] + One(hs[h].cell, Some(c)) == multiset(used)[c]
             ensures Count(Held(hs)[h := None], Some(c)) + One(hs[h].cell, Some(c)) == Count(Held(hs), Some(c))
    {
      assert (multiset(used') + multiset{hs[h].cell.value})[c] == multiset(used)[c];
      CountReplace(Held(hs), h, None, Some(c));
    }
  }

  /** A handle lets go of its cell, which goes to a waiter. */
  lemma BalancedHandOff(used: seq<CellId>, hs: seq<HandleState>, cs: seq<Completion>, h: nat, w: Completion)
    requires Balanced(used, hs, cs) && h < |hs| && hs[h].cell.Some? && Grant(w) == hs[h].cell
    ensures Balanced(used, hs[h := hs[h].(cell := None)], cs + [w])
  {
    assert Held(hs[h := hs[h].(cell := None)]) == Held(hs)[h := None];
    assert Promised(cs + [w]) == Promised(cs) + [Grant(w)];
    forall c
      ensures Count(Held(hs)[h := None], Some(c)) + One(hs[h].cell, Some(c)) == Count(Held(hs), Some(c))
      ensures Count(Promised(cs + [w]), Some(c)) == Count(Promised(cs), Some(c)) + One(hs[h].cell, Some(c))
    {
      CountReplace(Held(hs), h, None, Some(c));
      CountAppend(Promised(cs), Grant(w), Some(c));
    }
  }

  /** Cells change hands between handles. */
  lemma BalancedMove(used: seq<CellId>, hs: seq<HandleState>, hs': seq<HandleState>, cs: seq<Completion>)
    requires Balanced(used, hs, cs)
    requires forall c :: Count(Held(hs'), Some(c)) == Count(Held(hs), Some(c))
    ensures Balanced(used, hs', cs)
  {
  }

  // ---------- one event at a time ----------

  lemma CallKeepsOwned(s: System, ask: Ask, at: Ticks)
    requires Owned(s)
    ensures Owned(AfterCall(s, ask, at))
  {
    var (p, c) := GetBegin(s.pool, |s.asked|, ask.ctx, ask.wait, at);
    if c.Some? && c.value.outcome.Granted? {
      LeaseIsWellFormed(s.pool.storage, at);
      LeaseGrants(s.pool.storage, at);
      BalancedGrant(s.pool.storage.used, s.handles, s.pending, c.value);
    } else {
      LeaseFailsIffAllUsed(s.pool.storage, at);
      BalancedFailures(s.pool.storage.used, s.handles, s.pending, Given(c));
    }
  }

  lemma EnqueueKeepsOwned(s: System, k: nat, at: Ticks)
    requires Owned(s) && k < |s.leaving| && s.leaving[k] < |s.asked|
    ensures Owned(AfterEnqueue(s, k, at))
  {
    var r := s.leaving[k];
    var c := GetPush(s.pool, r, s.asked[r].ctx, s.asked[r].wait, at).1;
    BalancedFailures(s.pool.storage.used, s.handles, s.pending, Given(c));
  }

  /** A returned cell leaves the used list, or goes with the completion that was posted. */
  lemma ReleaseMovesCell(p: PoolState, how: Strategy, c: CellId, at: Ticks)
    requires WellFormed(p.storage) && c in p.storage.used && c in p.storage.cells
    ensures var (q, w) := Release(p, how, c, at);
            && WellFormed(q.storage) && q.storage.cells.Keys == p.storage.cells.Keys
            && (w.None? ==> multiset(q.storage.used) + multiset{c} == multiset(p.storage.used))
            && (w.Some? ==> q.storage.used == p.storage.used && w.value.outcome == Granted(c))
  {
    RecycleIsWellFormed(p.storage, c, at);
    WasteIsWellFormed(p.storage, c);
    ClearIsWellFormed(p.storage, c);
    WithoutOne(p.storage.used, c);
  }

  lemma HeldCellIsUsed(s: System, h: nat)
    requires Owned(s) && h < |s.handles| && s.handles[h].cell.Some?
    ensures s.handles[h].cell.value in s.pool.storage.used && s.handles[h].cell.value in s.pool.storage.cells
  {
    var c := s.handles[h].cell.value;
    CountCut(Held(s.handles), h, Some(c));
    assert multiset(s.pool.storage.used)[c] > 0;
    InLists(s.pool.storage, c);
  }

  lemma ReturnKeepsOwned(s: System, h: nat, how: Strategy, at: Ticks)
    requires Owned(s) && InPool(s, h)
    ensures Owned(AfterReturn(s, h, how, at))
    ensures AfterReturn(s, h, how, at).handles == s.handles[h := s.handles[h].(cell := None)]
  {
    if s.handles[h].cell.Some? {
      var c := s.handles[h].cell.value;
      HeldCellIsUsed(s, h);
      ReleaseMovesCell(s.pool, how, c, at);
      var (q, w) := Release(s.pool, how, c, at);
      if w.Some? {
        BalancedHandOff(s.pool.storage.used, s.handles, s.pending, h, w.value);
      } else {
        BalancedReturn(s.pool.storage.used, q.storage.used, s.handles, s.pending, h);
        assert s.pending + Given(w) == s.pending;
      }
    }
  }

  lemma MoveOutKeepsOwned(s: System, h: nat)
    requires Owned(s) && h < |s.handles|
    ensures Owned(AfterMoveOut(s, h))
  {
    var held, moved := Held(s.handles), s.handles[h].cell;
    assert Held(AfterMoveOut(s, h).handles) == held[h := None] + [moved];
    forall c ensures Count(held[h := None] + [moved], Some(c)) == Count(held, Some(c)) {
      CountReplace(held, h, None, Some(c));
      CountAppend(held[h := None], moved, Some(c));
    }
    BalancedMove(s.pool.storage.used, s.handles, AfterMoveOut(s, h).handles, s.pending);
  }

  lemma AssignKeepsOwned(s: System, h: nat, from: nat, at: Ticks)
    requires Owned(s) && InPool(s, h) && from < |s.handles|
    ensures Owned(AfterAssign(s, h, from, at))
  {
    ReturnKeepsOwned(s, h, s.handles[h].strategy, at);
    if h != from {
      var t := AfterReturn(s, h, s.handles[h].strategy, at);
      TakeOverKeepsOwned(t, h, from);
    }
  }

  lemma TakeOverKeepsOwned(t: System, h: nat, from: nat)
    requires Owned(t) && h < |t.handles| && from < |t.handles| && h != from && t.handles[h].cell.None?
    ensures Owned(t.(handles := t.handles[h := t.handles[from]][from := t.handles[from].(cell := None)]))
  {
    var hs := t.handles[h := t.handles[from]][from := t.handles[from].(cell := None)];
    var held, moved := Held(t.handles), t.handles[from].cell;
    assert Held(hs) == held[h := moved][from := None];
    forall c ensures Count(Held(hs), Some(c)) == Count(held, Some(c)) {
      CountReplace(held, h, moved, Some(c));
      CountReplace(held[h := moved], from, None, Some(c));
    }
    BalancedMove(t.pool.storage.used, t.handles, hs, t.pending);
  }

  lemma StoreKeepsOwned(s: System, h: nat, v: Value, at: Ticks)
    requires Owned(s) && InPool(s, h)
    ensures Owned(AfterStore(s, h, v, at))
  {
    if s.handles[h].cell.Some? {
      HeldCellIsUsed(s, h);
      PutIsWellFormed(s.pool.storage, s.handles[h].cell.value, v, at);
    }
  }

  lemma DrainKeepsOwned(s: System)
    requires Owned(s)
    ensures Owned(AfterDrainOne(s))
  {
    if s.pool.queue.waiters != [] {
      BalancedFailures(s.pool.storage.used, s.handles, s.pending, [Refused(s.pool.queue.waiters[0])]);
    }
  }

  lemma EventKeepsOwned(s: System, e: Event)
    requires Owned(s) && Enabled(s, e)
    ensures Owned(After(s, e))
  {
    match e
    case Call(ask, at) => CallKeepsOwned(s, ask, at);
    case Enqueue(k, at) => EnqueueKeepsOwned(s, k, at);
    case Run(k) => BalancedRun(s.pool.storage.used, s.handles, s.pending, k, HandleFor(s, s.pending[k]));
    case Return(h, how, at) => ReturnKeepsOwned(s, h, how, at);
    case Destroy(h, at) => ReturnKeepsOwned(s, h, s.handles[h].strategy, at);
    case MoveOut(h) => MoveOutKeepsOwned(s, h);
    case Assign(h, from, at) => AssignKeepsOwned(s, h, from, at);
    case Store(h, v, at) => StoreKeepsOwned(s, h, v, at);
    case InvalidateAll => InvalidateIsWellFormed(s.pool.storage);
    case DisableAll =>
    case DrainOne => DrainKeepsOwned(s);
    case Fire(ctx, at) =>
    case TimerHandler(k, at) =>
      BalancedFailures(s.pool.storage.used, s.handles, s.pending, Expire(s.pool, false, s.ready[k]).1);
    case AbortedHandler(d) =>
      BalancedFailures(s.pool.storage.used, s.handles, s.pending, Expire(s.pool, true, d).1);
  }

  // ---------- every run ----------

  lemma StartIsOwned(stock: Stock, queueCapacity: nat, idle: Ticks, life: Ticks, now: Ticks)
    ensures Owned(Start(stock, queueCapacity, idle, life, now))
  {
    match stock
    case Bare(n) => EmptyIsWellFormed(n, idle, life);
    case Stocked(vs) => FilledIsWellFormed(vs, idle, life, now);
  }

  lemma {:induction false} RunsKeepOwned(s: System, es: seq<Event>)
    requires Owned(s) && CanRun(s, es)
    ensures Owned(RunAll(s, es))
    decreases |es|
  {
    if es != [] {
      EventKeepsOwned(s, es[0]);
      RunsKeepOwned(After(s, es[0]), es[1..]);
    }
  }

  /** In every state of every run: a cell in use has one holder, a usable handle or a pending
      handler; holders hold cells in use; and no two of them hold the same one. */
  lemma EveryUsedCellHasOneHolder(s: System)
    requires Reachable(s)
    ensures Owned(s) && HoldersMatchUsed(s)
  {
    var stock, queueCapacity, idle, life, now, es :| Reaches(stock, queueCapacity, idle, life, now, es, s);
    var s0 := Start(stock, queueCapacity, idle, life, now);
    StartIsOwned(stock, queueCapacity, idle, life, now);
    RunsKeepOwned(s0, es);
    OwnedMeansOneHolder(s);
  }

  predicate HandleHolds(s: System, h: nat, c: CellId) {
    h < |s.handles| && s.handles[h].cell == Some(c)
  }

  predicate HandlerHolds(s: System, k: nat, c: CellId) {
    k < |s.pending| && s.pending[k].outcome == Granted(c)
  }

  ghost predicate HoldersMatchUsed(s: System) {
    && (forall h, c :: HandleHolds(s, h, c) ==> c in s.pool.storage.used && c in s.pool.storage.cells)
    && (forall k, c :: HandlerHolds(s, k, c) ==> c in s.pool.storage.used && c in s.pool.storage.cells)
    && (forall c :: c in s.pool.storage.used ==> (exists h :: HandleHolds(s, h, c)) || (exists k :: HandlerHolds(s, k, c)))
    && (forall h, h', c :: HandleHolds(s, h, c) && HandleHolds(s, h', c) ==> h == h')
    && (forall k, k', c :: HandlerHolds(s, k, c) && HandlerHolds(s, k', c) ==> k == k')
    && (forall h, k, c :: HandleHolds(s, h, c) ==> !HandlerHolds(s, k, c))
  }

  lemma HolderIsUsed(s: System, c: CellId)
    requires Owned(s) && Count(Held(s.handles), Some(c)) + Count(Promised(s.pending), Some(c)) > 0
    ensures c in s.pool.storage.used && c in s.pool.storage.cells
    ensures Count(Held(s.handles), Some(c)) + Count(Promised(s.pending), Some(c)) == 1
  {
    InLists(s.pool.storage, c);
    assert multiset(s.pool.storage.used)[c] == Count(Held(s.handles), Some(c)) + Count(Promised(s.pending), Some(c));
  }

  lemma UsedHasHolder(s: System, c: CellId)
    requires Owned(s) && c in s.pool.storage.used
    ensures (exists h :: HandleHolds(s, h, c)) || (exists k :: HandlerHolds(s, k, c))
  {
    assert multiset(s.pool.storage.used)[c] > 0;
    if Count(Held(s.handles), Some(c)) > 0 {
      CountZero(Held(s.handles), Some(c));
      var h :| 0 <= h < |s.handles| && Held(s.handles)[h] == Some(c);
      assert HandleHolds(s, h, c);
    } else {
      CountZero(Promised(s.pending), Some(c));
      var k :| 0 <= k < |s.pending| && Promised(s.pending)[k] == Some(c);
      assert HandlerHolds(s, k, c);
    }
  }

  lemma OwnedMeansOneHolder(s: System)
    requires Owned(s)
    ensures HoldersMatchUsed(s)
  {
    var held, promised := Held(s.handles), Promised(s.pending);
    forall h, c | HandleHolds(s, h, c)
      ensures c in s.pool.storage.used && c in s.pool.storage.cells && Count(promised, Some(c)) == 0
    {
      CountCut(held, h, Some(c));
      HolderIsUsed(s, c);
    }
    forall k, c | HandlerHolds(s, k, c)
      ensures c in s.pool.storage.used && c in s.pool.storage.cells && Count(promised, Some(c)) > 0
    {
      CountCut(promised, k, Some(c));
      HolderIsUsed(s, c);
    }
    forall c | c in s.pool.storage.used
      ensures (exists h :: HandleHolds(s, h, c)) || (exists k :: HandlerHolds(s, k, c))
    {
      UsedHasHolder(s, c);
    }
    forall h, h', c | HandleHolds(s, h, c) && HandleHolds(s, h', c) && h < h' ensures false {
      CountTwo(held, h, h');
      HolderIsUsed(s, c);
    }
    forall k, k', c | HandlerHolds(s, k, c) && HandlerHolds(s, k', c) && k < k' ensures false {
      CountTwo(promised, k, k');
      HolderIsUsed(s, c);
    }
  }

  // ---------- isolation ----------

  /** The event goes through a handle that holds c. */
  predicate Touches(s: System, e: Event, c: CellId) {
    match e
    case Return(h, _, _) => HandleHolds(s, h, c)
    case Destroy(h, _) => HandleHolds(s, h, c)
    case Assign(h, _, _) => HandleHolds(s, h, c)
    case Store(h, _, _) => HandleHolds(s, h, c)
    case _ => false
  }

  lemma OtherReleaseLeaves(p: PoolState, how: Strategy, d: CellId, at: Ticks, c: CellId)
    requires d in p.storage.cells && c in p.storage.used && c in p.storage.cells && c != d
    ensures var q := Release(p, how, d, at).0;
            c in q.storage.used && c in q.storage.cells && q.storage.cells[c] == p.storage.cells[c]
  {
    WithoutKeeps(p.storage.used, d);
  }

  /** Cell c is in use before and after, with the same value; only an invalidation may have marked it. */
  ghost predicate LeftAlone(s: StorageState, t: StorageState, c: CellId, invalidated: bool) {
    && c in s.used && c in s.cells && c in t.used && c in t.cells
    && (if invalidated then t.cells[c] == s.cells[c].(wasteOnRecycle := true) else t.cells[c] == s.cells[c])
  }

  /** While a cell is in use nothing but the handle that holds it changes its value or takes it
      out of use; in particular the value a waiter was granted waits untouched for its handler. */
  lemma OnlyItsHandleChangesACell(s: System, e: Event, c: CellId)
    requires Owned(s) && Enabled(s, e) && c in s.pool.storage.used && c in s.pool.storage.cells && !Touches(s, e, c)
    ensures LeftAlone(s.pool.storage, After(s, e).pool.storage, c, e.InvalidateAll?)
  {
    match e
    case Call(ask, at) => CallLeavesAlone(s, ask, at, c);
    case Return(h, how, at) => ReturnLeavesAlone(s, h, how, at, c);
    case Destroy(h, at) => ReturnLeavesAlone(s, h, s.handles[h].strategy, at, c);
    case Assign(h, from, at) => ReturnLeavesAlone(s, h, s.handles[h].strategy, at, c);
    case InvalidateAll => InLists(s.pool.storage, c);
    case Store(h, v, at) => StoreLeavesAlone(s, h, v, at, c);
    case _ => StorageSpared(s, e);
  }

  lemma CallLeavesAlone(s: System, ask: Ask, at: Ticks, c: CellId)
    requires Owned(s) && c in s.pool.storage.used && c in s.pool.storage.cells
    ensures LeftAlone(s.pool.storage, AfterCall(s, ask, at).pool.storage, c, false)
  {
    LeaseLeavesUsed(s.pool.storage, at, c);
  }

  lemma ReturnLeavesAlone(s: System, h: nat, how: Strategy, at: Ticks, c: CellId)
    requires InPool(s, h) && c in s.pool.storage.used && c in s.pool.storage.cells && !HandleHolds(s, h, c)
    ensures LeftAlone(s.pool.storage, AfterReturn(s, h, how, at).pool.storage, c, false)
  {
    if s.handles[h].cell.Some? {
      OtherReleaseLeaves(s.pool, how, s.handles[h].cell.value, at, c);
    }
  }

  lemma StoreLeavesAlone(s: System, h: nat, v: Value, at: Ticks, c: CellId)
    requires InPool(s, h) && c in s.pool.storage.used && c in s.pool.storage.cells && !HandleHolds(s, h, c)
    ensures LeftAlone(s.pool.storage, AfterStore(s, h, v, at).pool.storage, c, false)
  {
  }

  lemma LeaseLeavesUsed(s: StorageState, at: Ticks, c: CellId)
    requires WellFormed(s) && c in s.used && c in s.cells
    ensures var t := Lease(s, at).0; c in t.used && c in t.cells && t.cells[c] == s.cells[c]
  {
    if Lease(s, at).1.Some? {
      LeaseGrants(s, at);
    } else {
      LeaseFailsIffAllUsed(s, at);
    }
  }
}
