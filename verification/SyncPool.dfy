/** The synchronous pool over its mutable storage. A wait on the condition variable gives the lock
    away: what the other threads do with it meanwhile, and how the wait ends, are parameters. */
module SyncPool {
  import opened Wrappers
  import opened TimeTraits
  import opened StorageSpec
  import opened StorageModule
  import opened PoolSpec
  import opened SyncSpec

  class ConditionVariable {
    var sleeping: set<CallId>
    var woken: set<CallId>

    function View(): WaitSet
      reads this
    {
      WaitSet(sleeping, woken)
    }

    constructor ()
      ensures View() == WaitSet({}, {})
    {
      sleeping, woken := {}, {};
    }

    method Sleep(self: CallId)
      modifies this
      ensures View() == WaitSet(old(sleeping) + {self}, old(woken))
    {
      sleeping := sleeping + {self};
    }

    /** The thread has the lock again. */
    method Leave(self: CallId)
      modifies this
      ensures View() == WaitSet(old(sleeping) - {self}, old(woken) - {self})
    {
      sleeping, woken := sleeping - {self}, woken - {self};
    }

    method NotifyOne() returns (chosen: Option<CallId>)
      modifies this
      ensures MayWake(old(View()), chosen) && View() == SyncSpec.NotifyOne(old(View()), chosen)
    {
      if sleeping == {} {
        return None;
      }
      var one :| one in sleeping;
      sleeping, woken := sleeping - {one}, woken + {one};
      return Some(one);
    }

    method NotifyAll()
      modifies this
      ensures View() == SyncSpec.NotifyAll(old(View()))
    {
      sleeping, woken := {}, woken + sleeping;
    }
  }

  class SyncPoolImpl {
    const storage: Storage
    const hasCapacity: ConditionVariable
    var disabled: bool

    ghost function View(): SyncState
      reads this, storage
    {
      SyncState(storage.View(), disabled)
    }

    ghost predicate Valid()
      reads this, storage
    {
      storage.Valid()
    }

    constructor WithCapacity(capacity: nat, idleTimeout: Ticks, lifespan: Ticks)
      ensures Valid() && fresh(storage) && fresh(hasCapacity) && hasCapacity.View() == WaitSet({}, {})
      ensures View() == SyncState(Empty(capacity, idleTimeout, lifespan), false)
    {
      storage := new Storage.WithCapacity(capacity, idleTimeout, lifespan);
      hasCapacity := new ConditionVariable();
      disabled := false;
    }

    constructor WithValues(values: seq<Value>, idleTimeout: Ticks, lifespan: Ticks, now: Ticks)
      ensures Valid() && fresh(storage) && fresh(hasCapacity) && hasCapacity.View() == WaitSet({}, {})
      ensures View() == SyncState(Filled(values, idleTimeout, lifespan, now), false)
    {
      storage := new Storage.WithValues(values, idleTimeout, lifespan, now);
      hasCapacity := new ConditionVariable();
      disabled := false;
    }

    /** The part of the loop before the wait. None: the thread has to wait. */
    method TryOnce(now: Ticks) returns (answer: Option<Outcome>)
      requires Valid()
      modifies storage
      ensures Valid() && View() == Pass(old(View()), now).0 && answer == Pass(old(View()), now).1
    {
      if disabled {
        return Some(Failed(Disabled));
      }
      var cell := storage.Lease(now);
      if cell.Some? {
        return Some(Granted(cell.value));
      }
      return None;
    }

    method Recycle(cell: CellId, now: Ticks) returns (chosen: Option<CallId>)
      requires Valid() && cell in storage.used
      modifies storage, hasCapacity
      ensures cell in old(storage.cells)
      ensures MayWake(old(hasCapacity.View()), chosen)
      ensures hasCapacity.View() == NotifyOne(old(hasCapacity.View()), chosen)
      ensures Valid() && View() == old(View()).(storage := StorageSpec.Recycle(old(storage.View()), cell, now))
    {
      storage.Recycle(cell, now);
      chosen := hasCapacity.NotifyOne();
    }

    method Waste(cell: CellId) returns (chosen: Option<CallId>)
      requires Valid() && cell in storage.used
      modifies storage, hasCapacity
      ensures cell in old(storage.cells)
      ensures MayWake(old(hasCapacity.View()), chosen)
      ensures hasCapacity.View() == NotifyOne(old(hasCapacity.View()), chosen)
      ensures Valid() && View() == old(View()).(storage := StorageSpec.Waste(old(storage.View()), cell))
    {
      storage.Waste(cell);
      chosen := hasCapacity.NotifyOne();
    }

    method Disable()
      requires Valid()
      modifies this`disabled, hasCapacity
      ensures hasCapacity.View() == NotifyAll(old(hasCapacity.View()))
      ensures Valid() && View() == old(View()).(disabled := true)
    {
      disabled := true;
      hasCapacity.NotifyAll();
    }

    method Invalidate()
      requires Valid()
      modifies storage
      ensures Valid() && View() == old(View()).(storage := StorageSpec.Invalidate(old(storage.View())))
    {
      storage.Invalidate();
    }

    method Perform(act: Act)
      requires Valid() && MayDo(View(), act)
      modifies this, storage, hasCapacity
      ensures Valid() && View() == Do(old(View()), act)
    {
      match act
      case DisablePool => Disable();
      case Through(CallLease(now)) =>
        var _ := TryOnce(now);
      case Through(CallRecycle(cell, now)) => var _ := Recycle(cell, now);
      case Through(CallWaste(cell)) => var _ := Waste(cell);
      case Through(CallInvalidate) => Invalidate();
      case Through(CallPut(cell, value, now)) => storage.PutValue(cell, value, now);
    }

    /** The others have the lock for a while. */
    method WaitFor(self: CallId, wait: Wait) returns (noTimeout: bool)
      requires Valid() && MayDoAll(View(), wait.others)
      modifies this, storage, hasCapacity
      ensures Valid() && View() == DoAll(old(View()), wait.others)
      ensures noTimeout == wait.noTimeout && self !in hasCapacity.sleeping && self !in hasCapacity.woken
    {
      hasCapacity.Sleep(self);
      var others := wait.others;
      ghost var end := DoAll(View(), others);
      while others != []
        invariant Valid() && MayDoAll(View(), others) && DoAll(View(), others) == end
        decreases |others|
      {
        Perform(others[0]);
        others := others[1..];
      }
      hasCapacity.Leave(self);
      return wait.noTimeout;
    }

    /** get, through the given waits. None: the thread is still waiting after the last of them. */
    method Get(self: CallId, start: Ticks, waits: seq<Wait>) returns (answer: Option<Outcome>)
      requires Valid() && WaitsAllowed(View(), waits)
      requires self !in hasCapacity.sleeping
      modifies this, storage, hasCapacity
      ensures Valid() && WaitsAllowed(old(View()), waits)
      ensures View() == SyncSpec.Get(old(View()), start, waits).0
      ensures answer == SyncSpec.Get(old(View()), start, waits).1
      ensures answer.None? <==> self in hasCapacity.sleeping
    {
      var now, rest := start, waits;
      ghost var end, verdict := SyncSpec.Get(View(), start, waits).0, SyncSpec.Get(View(), start, waits).1;
      while true
        invariant Valid() && WaitsAllowed(View(), rest)
        invariant SyncSpec.Get(View(), now, rest).0 == end && SyncSpec.Get(View(), now, rest).1 == verdict
        invariant self !in hasCapacity.sleeping
        decreases |rest|
      {
        GetUnfolds(View(), now, rest);
        answer := TryOnce(now);
        if answer.Some? {
          return;
        }
        if rest == [] {
          hasCapacity.Sleep(self);
          return None;
        }
        var noTimeout := WaitFor(self, rest[0]);
        if !noTimeout {
          return Some(Failed(GetResourceTimeout));
        }
        now, rest := rest[0].now, rest[1..];
      }
    }

    method Stats() returns (size: nat, availableCount: nat, usedCount: nat)
      requires Valid()
      ensures size == availableCount + usedCount <= |storage.cells|
      ensures availableCount == |storage.available| && usedCount == |storage.used|
    {
      var wastedCount;
      availableCount, usedCount, wastedCount := storage.Stats();
      size := availableCount + usedCount;
    }
  }
}
