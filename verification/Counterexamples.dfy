/** Runs in which the pool does what one may not expect of it. */
module Counterexamples {
  import opened Wrappers
  import opened TimeTraits
  import opened StorageSpec
  import opened QueueSpec
  import opened PoolSpec
  import opened HandleSpec
  import opened Protocol
  import opened Fairness

  // ---------- a pool with one cell and room for one waiter ----------

  const ASK := Ask(0, 5, UseWaste)
  const HOLDER := HandleState(UseWaste, Some(0))
  const GONE := HandleState(UseWaste, None)

  function Small(idle: Ticks): System {
    Start(Bare(1), 1, idle, 10, 0)
  }

  /** Its storage while the cell is in use. */
  function Out(idle: Ticks, value: Option<Value>, reset: Ticks, flag: bool): StorageState {
    StorageState(idle, 10, [], [0], [], map[0 := Idle(value, MAX, reset, flag)])
  }

  /** Its storage while the cell is wasted. */
  function In(idle: Ticks, reset: Ticks, flag: bool): StorageState {
    StorageState(idle, 10, [], [], [0], map[0 := Idle(None, MAX, reset, flag)])
  }

  /** All that matters of a state: the storage, the requests waiting, the handles, the handlers
      pending, the requests on their way, and the number of requests made. */
  ghost predicate Is(s: System, storage: StorageState, waiting: seq<RequestId>, handles: seq<HandleState>,
                     pending: seq<Completion>, leaving: seq<RequestId>, asked: nat)
  {
    && s.pool.storage == storage && s.pool.queue.capacity == 1 && !s.draining && s.now == 0
    && |s.pool.queue.waiters| == |waiting|
    && (forall i :: 0 <= i < |waiting| ==> s.pool.queue.waiters[i].request == waiting[i] && s.pool.queue.waiters[i].ctx == 0)
    && s.handles == handles && s.pending == pending && s.leaving == leaving
    && |s.asked| == asked && (forall i :: 0 <= i < asked ==> s.asked[i] == ASK)
  }

  function Cell(r: RequestId): Completion {
    Completion(r, 0, Granted(0), Post)
  }

  /** The run es leads from o to s. */
  ghost predicate Path(o: System, es: seq<Event>, s: System) {
    CanRun(o, es) && RunAll(o, es) == s
  }

  /** And one event further. */
  lemma {:induction false} Further(o: System, es: seq<Event>, s: System, e: Event, t: System) returns (es': seq<Event>)
    requires Path(o, es, s) && Leads(s, e, t)
    ensures Path(o, es', t)
    decreases |es|
  {
    if es == [] {
      RunOne(s, e);
      es' := [e];
    } else {
      var rest := Further(After(o, es[0]), es[1..], s, e, t);
      RunFirst(o, es[0], rest);
      es' := [es[0]] + rest;
    }
  }

  /** The first get leases the cell. */
  lemma FirstGet(idle: Ticks) returns (es: seq<Event>, s: System)
    ensures Path(Small(idle), es, s) && !s.pool.disabled && s.log == [Cell(0)]
    ensures Is(s, Out(idle, None, EPOCH, false), [], [], [Cell(0)], [], 1)
  {
    var s0 := Small(idle);
    EmptyIsWellFormed(1, idle, 10);
    assert Names(1) == [0] && s0.pool.storage.cells == map[0 := Fresh()];
    LeaseOrder(s0.pool.storage, 0, 0);
    assert Emptied(s0.pool.storage.cells, []) == s0.pool.storage.cells;
    s := AfterCall(s0, ASK, 0);
    assert s.pool.storage.cells == map[0 := Idle(None, MAX, EPOCH, false)];
    es := [Call(ASK, 0)];
    RunOne(s0, Call(ASK, 0));
  }

  /** A handler that brings the cell runs. */
  lemma HandlerRuns(o: System, es: seq<Event>, s: System, st: StorageState, ws: seq<RequestId>, hs: seq<HandleState>,
                    r: RequestId, lv: seq<RequestId>, n: nat)
    returns (es': seq<Event>, t: System)
    requires Path(o, es, s) && Is(s, st, ws, hs, [Cell(r)], lv, n) && r < n
    ensures Path(o, es', t) && t.pool == s.pool && t.log == s.log && t.epoch == s.epoch
    ensures Is(t, st, ws, hs + [HOLDER], [], lv, n)
  {
    t := AfterRun(s, 0);
    es' := Further(o, es, s, Run(0), t);
  }

  /** A get finds nothing to lease. */
  lemma NextGet(o: System, es: seq<Event>, s: System, st: StorageState, hs: seq<HandleState>, n: nat)
    returns (es': seq<Event>, t: System)
    requires Path(o, es, s) && Is(s, st, [], hs, [], [], n)
    requires !s.pool.disabled && st.available == [] && st.wasted == []
    ensures Path(o, es', t) && t.pool == s.pool && t.log == s.log && t.epoch == s.epoch
    ensures Is(t, st, [], hs, [], [n], n + 1)
  {
    assert Emptied(st.cells, []) == st.cells;
    t := AfterCall(s, ASK, 0);
    es' := Further(o, es, s, Call(ASK, 0), t);
  }

  /** And is queued. */
  lemma Queued(o: System, es: seq<Event>, s: System, st: StorageState, hs: seq<HandleState>, ps: seq<Completion>,
               r: RequestId, n: nat)
    returns (es': seq<Event>, t: System)
    requires Path(o, es, s) && Is(s, st, [], hs, ps, [r], n) && r < n
    ensures Path(o, es', t) && t.log == s.log && t.pool.disabled == s.pool.disabled && t.epoch == s.epoch
    ensures Is(t, st, [r], hs, ps, [], n)
  {
    t := AfterEnqueue(s, 0, 0);
    es' := Further(o, es, s, Enqueue(0, 0), t);
  }

  lemma WastesTo()
    ensures StorageSpec.Waste(Out(1, None, EPOCH, false), 0) == In(1, EPOCH, false)
  {
    assert StorageSpec.Waste(Out(1, None, EPOCH, false), 0).cells == map[0 := Idle(None, MAX, EPOCH, false)];
  }

  lemma LeasesTo()
    ensures Lease(In(1, EPOCH, false), 0) == (Out(1, None, EPOCH, false), Some(0))
  {
    var s := In(1, EPOCH, false);
    LeaseLoneWasted(s, 0, 0);
    assert s.cells[0 := s.cells[0].(wasteOnRecycle := false)] == s.cells && s.used + [0] == [0];
  }

  /** The cell is wasted while nobody is queued. */
  lemma GivenBack(o: System, es: seq<Event>, s: System, lv: seq<RequestId>, n: nat) returns (es': seq<Event>, t: System)
    requires Path(o, es, s) && Is(s, Out(1, None, EPOCH, false), [], [HOLDER], [], lv, n)
    ensures Path(o, es', t) && t.log == s.log && t.pool.disabled == s.pool.disabled
    ensures Is(t, In(1, EPOCH, false), [], [GONE], [], lv, n)
  {
    WastesTo();
    t := AfterReturn(s, 0, UseWaste, 0);
    es' := Further(o, es, s, Return(0, UseWaste, 0), t);
  }

  // ---------- the divided get ----------

  /** The first request has the cell and the second is on its way to the queue. */
  lemma OneOnItsWay() returns (es: seq<Event>, s: System)
    ensures Path(Small(1), es, s) && !s.pool.disabled
    ensures Is(s, Out(1, None, EPOCH, false), [], [HOLDER], [], [1], 2)
  {
    var out := Out(1, None, EPOCH, false);
    es, s := FirstGet(1);
    es, s := HandlerRuns(Small(1), es, s, out, [], [], 0, [], 1);
    es, s := NextGet(Small(1), es, s, out, [HOLDER], 1);
  }

  /** With a divided get a request can be left waiting while the only cell is free: the cell
      comes back between the two parts. */
  lemma DividedGetCanStrandAWaiter() returns (es: seq<Event>)
    ensures CanRun(Small(1), es) && !Conserving(RunAll(Small(1), es).pool)
  {
    var s;
    es, s := OneOnItsWay();
    es, s := GivenBack(Small(1), es, s, [1], 2);
    es, s := Queued(Small(1), es, s, In(1, EPOCH, false), [GONE], [], 1, 2);
  }

  /** The pool is disabled, and drained at once as nobody is queued. */
  lemma Shut(o: System, es: seq<Event>, s: System, st: StorageState, hs: seq<HandleState>, lv: seq<RequestId>, n: nat)
    returns (es': seq<Event>, t: System)
    requires Path(o, es, s) && Is(s, st, [], hs, [], lv, n)
    ensures Path(o, es', t) && t.pool.disabled
    ensures Is(t, st, [], hs, [], lv, n)
  {
    var u := AfterDisable(s);
    es' := Further(o, es, s, DisableAll, u);
    t := AfterDrainOne(u);
    es' := Further(o, es', u, DrainOne, t);
  }

  /** And one can be left waiting in a disabled pool. */
  lemma DividedGetCanWaitInADisabledPool() returns (es: seq<Event>)
    ensures CanRun(Small(1), es) && !Closed(RunAll(Small(1), es))
  {
    var out := Out(1, None, EPOCH, false);
    var s;
    es, s := OneOnItsWay();
    es, s := Shut(Small(1), es, s, out, [HOLDER], [1], 2);
    es, s := Queued(Small(1), es, s, out, [HOLDER], [], 1, 2);
  }

  /** Request r has been granted a cell, and a request made before it waits. */
  ghost predicate Overtaken(s: System, r: RequestId) {
    exists c, w :: c in s.log && c.outcome.Granted? && c.request == r && w in s.pool.queue.waiters && w.request < r
  }

  /** A get that leases the wasted cell. */
  lemma Leases(o: System, es: seq<Event>, s: System, hs: seq<HandleState>, lv: seq<RequestId>, n: nat)
    returns (es': seq<Event>, t: System)
    requires Path(o, es, s) && Is(s, In(1, EPOCH, false), [], hs, [], lv, n) && !s.pool.disabled
    ensures Path(o, es', t) && t.log == s.log + [Cell(n)]
    ensures Is(t, Out(1, None, EPOCH, false), [], hs, [Cell(n)], lv, n + 1)
  {
    LeasesTo();
    t := AfterCall(s, ASK, 0);
    es' := Further(o, es, s, Call(ASK, 0), t);
  }

  /** A request can also be overtaken: the cell comes back between its two parts and a younger
      request leases it; the older one then waits. */
  lemma DividedGetCanBeOvertaken() returns (es: seq<Event>)
    ensures CanRun(Small(1), es) && Overtaken(RunAll(Small(1), es), 2)
  {
    var s;
    es, s := OneOnItsWay();
    es, s := GivenBack(Small(1), es, s, [1], 2);
    es, s := Leases(Small(1), es, s, [GONE], [1], 2);
    es, s := Queued(Small(1), es, s, Out(1, None, EPOCH, false), [GONE], [Cell(2)], 1, 3);
    assert Cell(2) in s.log && s.pool.queue.waiters[0] in s.pool.queue.waiters;
  }

  /** The cell is wasted by its second holder and handed to request 1. */
  lemma PassedOn(o: System, es: seq<Event>, s: System) returns (es': seq<Event>, t: System)
    requires Path(o, es, s) && Is(s, Out(1, None, EPOCH, false), [1], [GONE, HOLDER], [], [], 3)
    ensures Path(o, es', t) && t.log == s.log + [Cell(1)]
  {
    t := AfterReturn(s, 1, UseWaste, 0);
    es' := Further(o, es, s, Return(1, UseWaste, 0), t);
  }

  /** And granted a cell after the younger one. */
  lemma DividedGetCanGrantOutOfOrder() returns (es: seq<Event>)
    ensures CanRun(Small(1), es) && !GrantsInOrder(RunAll(Small(1), es).log)
  {
    var s;
    es, s := OneOnItsWay();
    es, s := GivenBack(Small(1), es, s, [1], 2);
    es, s := Leases(Small(1), es, s, [GONE], [1], 2);
    es, s := Queued(Small(1), es, s, Out(1, None, EPOCH, false), [GONE], [Cell(2)], 1, 3);
    var log := s.log;
    assert log[|log| - 1] == Cell(2);
    es, s := HandlerRuns(Small(1), es, s, Out(1, None, EPOCH, false), [1], [GONE], 2, [], 3);
    es, s := PassedOn(Small(1), es, s);
    assert s.log[|log| - 1] == Cell(2) && s.log[|log|] == Cell(1);
  }

  // ---------- the hand-off ----------

  /** The holder stores a value. */
  lemma Stores(o: System, es: seq<Event>, s: System, idle: Ticks, flag: bool, hs: seq<HandleState>, h: nat, n: nat, v: Value)
    returns (es': seq<Event>, t: System)
    requires Path(o, es, s) && Is(s, Out(idle, None, EPOCH, flag), [], hs, [], [], n) && h < |hs| && hs[h] == HOLDER
    ensures Path(o, es', t) && t.pool.disabled == s.pool.disabled
    ensures t.epoch == s.epoch && 0 in t.birth && t.birth[0] == t.epoch
    ensures Is(t, Out(idle, Some(v), EPOCH, flag), [], hs, [], [], n)
  {
    t := AfterStore(s, h, v, 0);
    assert t.pool.storage.cells == map[0 := Idle(Some(v), MAX, EPOCH, flag)];
    es' := Further(o, es, s, Store(h, v, 0), t);
  }

  /** The cell is recycled while request 1 is queued, and handed to it. */
  lemma HandedOver(s: System, idle: Ticks, value: Option<Value>, flag: bool) returns (t: System)
    requires Is(s, Out(idle, value, EPOCH, flag), [1], [HOLDER], [], [], 2)
    ensures Leads(s, Return(0, UseRecycle, 0), t)
    ensures Is(t, Out(idle, if flag then None else value, EPOCH, flag), [], [GONE], [Cell(1)], [], 2)
  {
    t := AfterReturn(s, 0, UseRecycle, 0);
    assert t.pool.storage.cells == map[0 := Idle(if flag then None else value, MAX, EPOCH, flag)];
  }

  /** The same after an invalidation. */
  lemma HandedOverInvalid(o: System, es: seq<Event>, s: System) returns (es': seq<Event>, t: System)
    requires Path(o, es, s) && Is(s, Out(1, None, EPOCH, false), [1], [HOLDER], [], [], 2)
    ensures Path(o, es', t)
    ensures Is(t, Out(1, None, EPOCH, true), [], [GONE], [Cell(1)], [], 2)
  {
    var u := AfterInvalidate(s);
    assert u.pool.storage.cells == map[0 := Idle(None, MAX, EPOCH, true)];
    es' := Further(o, es, s, InvalidateAll, u);
    t := HandedOver(u, 1, None, true);
    es' := Further(o, es', u, Return(0, UseRecycle, 0), t);
  }

  /** The last step of a run that loses a value: a flagged cell is recycled. */
  lemma FlaggedIsWasted(s: System, v: Value)
    requires Is(s, Out(1, Some(v), EPOCH, true), [], [GONE, HOLDER], [], [], 2)
    ensures var last := Return(1, UseRecycle, 0);
            && Enabled(s, last) && 0 in After(s, last).pool.storage.wasted
            && 0 in After(s, last).pool.storage.cells && After(s, last).pool.storage.cells[0].value == None
  {
    var t := AfterReturn(s, 1, UseRecycle, 0);
    assert t.pool.storage == StorageSpec.Recycle(s.pool.storage, 0, 0);
  }

  /** A value stored after the last invalidation, and within its lifespan, is destroyed when its cell
      is recycled: the cell had been flagged, and came to its holder by a hand-off. */
  lemma HandOffCanLoseANewValue(v: Value) returns (es: seq<Event>, s: System)
    ensures CanRun(Small(1), es) && s == RunAll(Small(1), es)
    ensures |s.handles| == 2 && s.handles[1] == HOLDER && 0 in s.pool.storage.cells && 0 in s.birth
    ensures s.pool.storage.cells[0].value == Some(v) && s.birth[0] == s.epoch && LifeEnd(s.pool.storage, 0) > s.now
    ensures var last := Return(1, UseRecycle, 0);
            && Enabled(s, last) && 0 in After(s, last).pool.storage.wasted
            && 0 in After(s, last).pool.storage.cells && After(s, last).pool.storage.cells[0].value == None
  {
    es, s := OneOnItsWay();
    es, s := Queued(Small(1), es, s, Out(1, None, EPOCH, false), [HOLDER], [], 1, 2);
    es, s := HandedOverInvalid(Small(1), es, s);
    es, s := HandlerRuns(Small(1), es, s, Out(1, None, EPOCH, true), [], [GONE], 1, [], 2);
    es, s := Stores(Small(1), es, s, 1, true, [GONE, HOLDER], 1, 2, v);
    FlaggedIsWasted(s, v);
  }

  /** The way through the storage when cells may not be idle at all. */
  lemma SlowWayEmpties(v: Value)
    ensures var (slow, c) := Lease(StorageSpec.Recycle(Out(0, Some(v), EPOCH, false), 0, 0), 0);
            c == Some(0) && 0 in slow.cells && slow.cells[0].value == None
  {
    var s := StorageState(0, 10, [0], [], [], map[0 := Idle(Some(v), 0, EPOCH, false)]);
    assert StorageSpec.Recycle(Out(0, Some(v), EPOCH, false), 0, 0) == s;
    LeaseLoneAvailable(s, 0, 0);
  }

  /** With an idle timeout of zero a waiter is handed a value that it would not get if the cell went
      through the storage, where it is idle for too long at once. */
  lemma HandOffCanDisagree(v: Value) returns (es: seq<Event>, s: System)
    ensures CanRun(Small(0), es) && s == RunAll(Small(0), es)
    ensures s.handles == [HOLDER] && |s.pool.queue.waiters| == 1 && 0 in s.pool.storage.cells
    ensures var back := Return(0, UseRecycle, 0);
            && Enabled(s, back)
            && var fast := After(s, back);
               && Cell(1) in fast.pending && 0 in fast.pool.storage.cells && fast.pool.storage.cells[0].value == Some(v)
    ensures var (slow, c) := Lease(StorageSpec.Recycle(s.pool.storage, 0, 0), 0);
            c == Some(0) && 0 in slow.cells && slow.cells[0].value == None
  {
    es, s := FirstGet(0);
    es, s := HandlerRuns(Small(0), es, s, Out(0, None, EPOCH, false), [], [], 0, [], 1);
    es, s := Stores(Small(0), es, s, 0, false, [HOLDER], 0, 1, v);
    es, s := NextGet(Small(0), es, s, Out(0, Some(v), EPOCH, false), [HOLDER], 1);
    es, s := Queued(Small(0), es, s, Out(0, Some(v), EPOCH, false), [HOLDER], [], 1, 2);
    var t := HandedOver(s, 0, Some(v), false);
    assert Cell(1) in t.pending;
    SlowWayEmpties(v);
  }
}
