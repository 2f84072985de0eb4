/** The asynchronous pool over its two mutable parts. Methods return what they post or dispatch;
    the requests they serve are named by the caller. Clock readings are parameters. */
module AsyncPool {
  import opened Wrappers
  import opened TimeTraits
  import opened StorageSpec
  import opened StorageModule
  import opened QueueSpec
  import opened QueueModule
  import opened PoolSpec

  class PoolImpl {
    const storage: Storage
    const callbacks: Queue
    var disabled: bool

    ghost function View(): PoolState
      reads this, storage, callbacks
    {
      PoolState(storage.View(), callbacks.View(), disabled)
    }

    ghost predicate Valid()
      reads this, storage, callbacks
    {
      storage.Valid() && callbacks.Valid()
    }

    constructor WithCapacity(capacity: nat, queueCapacity: nat, idleTimeout: Ticks, lifespan: Ticks)
      ensures Valid() && fresh(storage) && fresh(callbacks)
      ensures View() == PoolState(Empty(capacity, idleTimeout, lifespan), QueueState(queueCapacity, [], 0, map[]), false)
    {
      storage := new Storage.WithCapacity(capacity, idleTimeout, lifespan);
      callbacks := new Queue(queueCapacity);
      disabled := false;
    }

    constructor WithValues(values: seq<Value>, queueCapacity: nat, idleTimeout: Ticks, lifespan: Ticks, now: Ticks)
      ensures Valid() && fresh(storage) && fresh(callbacks)
      ensures View() == PoolState(Filled(values, idleTimeout, lifespan, now), QueueState(queueCapacity, [], 0, map[]), false)
    {
      storage := new Storage.WithValues(values, idleTimeout, lifespan, now);
      callbacks := new Queue(queueCapacity);
      disabled := false;
    }

    /** The critical section of get: the answer, or None when the request has to be queued. */
    method GetBegin(r: RequestId, ctx: IoContext, wait: Ticks, now: Ticks) returns (answer: Option<Completion>)
      requires Valid()
      modifies storage
      ensures View() == PoolSpec.GetBegin(old(View()), r, ctx, wait, now).0
      ensures answer == PoolSpec.GetBegin(old(View()), r, ctx, wait, now).1
      ensures Valid()
    {
      if disabled {
        return Some(Completion(r, ctx, Failed(Disabled), Dispatch));
      }
      var cell := storage.Lease(now);
      if cell.Some? {
        return Some(Completion(r, ctx, Granted(cell.value), Post));
      }
      if wait == 0 {
        return Some(Completion(r, ctx, Failed(GetResourceTimeout), Post));
      }
      return None;
    }

    /** The rest of get, for a request that has to be queued. */
    method GetPush(r: RequestId, ctx: IoContext, wait: Ticks, now: Ticks) returns (answer: Option<Completion>)
      requires Valid()
      modifies callbacks
      ensures View() == PoolSpec.GetPush(old(View()), r, ctx, wait, now).0
      ensures answer == PoolSpec.GetPush(old(View()), r, ctx, wait, now).1
      ensures Valid()
    {
      var pushed := callbacks.Push(ctx, wait, r, now);
      if pushed {
        return None;
      }
      return Some(Completion(r, ctx, Failed(RequestQueueOverflow), Post));
    }

    method Get(r: RequestId, ctx: IoContext, wait: Ticks, t: Ticks, t': Ticks) returns (answer: Option<Completion>)
      requires Valid()
      modifies storage, callbacks
      ensures View() == PoolSpec.Get(old(View()), r, ctx, wait, t, t').0
      ensures answer == PoolSpec.Get(old(View()), r, ctx, wait, t, t').1
      ensures Valid()
    {
      answer := GetBegin(r, ctx, wait, t);
      if answer.None? {
        answer := GetPush(r, ctx, wait, t');
      }
    }

    method Recycle(cell: CellId, now: Ticks) returns (posted: Option<Completion>)
      requires Valid() && cell in storage.used
      modifies storage, callbacks
      ensures cell in old(storage.cells)
      ensures View() == PoolSpec.Recycle(old(View()), cell, now).0
      ensures posted == PoolSpec.Recycle(old(View()), cell, now).1
      ensures forall c :: c in old(storage.used) && c != cell ==> c in storage.used
      ensures Valid()
    {
      InLists(storage.View(), cell);
      var queued := callbacks.Pop();
      if queued.None? {
        storage.Recycle(cell, now);
        posted := None;
      } else {
        HandOn(cell, now);
        posted := Some(Completion(queued.value.request, queued.value.ctx, Granted(cell), Post));
      }
    }

    /** Destroys the value of a cell about to be handed to a waiter if it is not valid any more. */
    method HandOn(cell: CellId, now: Ticks)
      requires storage.Valid() && cell in storage.used
      modifies storage
      ensures cell in old(storage.cells) && storage.View() == HandedOn(old(storage.View()), cell, now)
      ensures storage.Valid()
    {
      var valid := storage.IsValid(cell, now);
      if !valid {
        storage.ResetCell(cell);
      }
    }

    method Waste(cell: CellId) returns (posted: Option<Completion>)
      requires Valid() && cell in storage.used
      modifies storage, callbacks
      ensures cell in old(storage.cells)
      ensures View() == PoolSpec.Waste(old(View()), cell).0
      ensures posted == PoolSpec.Waste(old(View()), cell).1
      ensures forall c :: c in old(storage.used) && c != cell ==> c in storage.used
      ensures Valid()
    {
      InLists(storage.View(), cell);
      var queued := callbacks.Pop();
      if queued.None? {
        storage.Waste(cell);
        posted := None;
      } else {
        storage.ResetCell(cell);
        posted := Some(Completion(queued.value.request, queued.value.ctx, Granted(cell), Post));
      }
    }

    method Disable() returns (dispatched: seq<Completion>)
      requires Valid()
      modifies this`disabled, callbacks
      ensures View() == PoolSpec.Disable(old(View())).0
      ensures dispatched == PoolSpec.Disable(old(View())).1
      ensures Valid()
    {
      disabled := true;
      dispatched := [];
      ghost var q := callbacks.View();
      while true
        invariant disabled && callbacks.Valid()
        invariant Drained(callbacks.View()) == Drained(q)
        invariant dispatched + FailAll(callbacks.View().waiters, Error.Disabled, Dispatch) ==
                  FailAll(q.waiters, Error.Disabled, Dispatch)
        decreases |callbacks.View().waiters|
      {
        ghost var before := callbacks.View();
        var queued := callbacks.Pop();
        if queued.None? {
          break;
        }
        var failed := Completion(queued.value.request, queued.value.ctx, Failed(Error.Disabled), Dispatch);
        DrainedByPop(before);
        FailAllFirst(dispatched, before.waiters, Error.Disabled, Dispatch);
        dispatched := dispatched + [failed];
      }
    }

    method Invalidate()
      requires Valid()
      modifies storage
      ensures View() == PoolSpec.Invalidate(old(View())) && Valid()
    {
      storage.Invalidate();
    }

    /** The handler of a timer wait, bound to the deadline it captured. */
    method OnTimer(aborted: bool, deadline: Ticks) returns (posted: seq<Completion>)
      requires Valid()
      modifies callbacks
      ensures View() == PoolSpec.Expire(old(View()), aborted, deadline).0
      ensures posted == PoolSpec.Expire(old(View()), aborted, deadline).1
      ensures Valid()
    {
      ExpiredHandlersFail(QueueSpec.Cancel(callbacks.View(), aborted, deadline).1);
      var expired := callbacks.Cancel(aborted, deadline);
      posted := ExpiredHandlers(expired);
    }

    method Stats() returns (size: nat, availableCount: nat, usedCount: nat, queueSize: nat)
      requires Valid()
      ensures size == availableCount + usedCount <= |storage.cells|
      ensures availableCount == |View().storage.available| && usedCount == |View().storage.used|
      ensures queueSize == |View().queue.waiters|
    {
      var wastedCount;
      availableCount, usedCount, wastedCount := storage.Stats();
      queueSize := callbacks.Size();
      size := availableCount + usedCount;
    }
  }

  /** The completions of expired handlers. */
  function ExpiredHandlers(vs: seq<QueuedValue>): seq<Completion> {
    seq(|vs|, i requires 0 <= i < |vs| => Completion(vs[i].request, vs[i].ctx, Failed(GetResourceTimeout), Post))
  }

  lemma ExpiredHandlersFail(ws: seq<Waiter>)
    ensures ExpiredHandlers(QueuedAll(ws)) == FailAll(ws, GetResourceTimeout, Post)
  {
  }
}
