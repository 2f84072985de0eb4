/** The asynchronous pool as a state and functions on it: storage, request queue and the
    hand-off that lets a returned cell go straight to a waiter. */
module PoolSpec {
  import opened Wrappers
  import opened TimeTraits
  import opened Sequences
  import opened StorageSpec
  import opened QueueSpec

  datatype Error = Disabled | GetResourceTimeout | RequestQueueOverflow

  datatype Outcome = Granted(cell: CellId) | Failed(error: Error)

  datatype Delivery = Post | Dispatch

  /** A request's handler, bound to its outcome and given to an io context. */
  datatype Completion = Completion(request: RequestId, ctx: IoContext, outcome: Outcome, delivery: Delivery)

  datatype PoolState = PoolState(storage: StorageState, queue: QueueState, disabled: bool)

  // ---------- get ----------

  /** The critical section of get. None: the request goes on to be queued. */
  function GetBegin(p: PoolState, r: RequestId, ctx: IoContext, wait: Ticks, now: Ticks): (PoolState, Option<Completion>) {
    if p.disabled then (p, Some(Completion(r, ctx, Failed(Disabled), Dispatch)))
    else
      var (s, cell) := Lease(p.storage, now);
      (p.(storage := s),
       if cell.Some? then Some(Completion(r, ctx, Granted(cell.value), Post))
       else if wait == 0 then Some(Completion(r, ctx, Failed(GetResourceTimeout), Post))
       else None)
  }

  /** What follows it, outside the pool's lock. None: the request is queued. */
  function GetPush(p: PoolState, r: RequestId, ctx: IoContext, wait: Ticks, now: Ticks): (PoolState, Option<Completion>) {
    var (q, pushed) := Push(p.queue, ctx, wait, r, now);
    (p.(queue := q), if pushed then None else Some(Completion(r, ctx, Failed(RequestQueueOverflow), Post)))
  }

  /** The whole call when nothing comes between its two parts. */
  function Get(p: PoolState, r: RequestId, ctx: IoContext, wait: Ticks, t: Ticks, t': Ticks): (PoolState, Option<Completion>) {
    var (p1, c) := GetBegin(p, r, ctx, wait, t);
    if c.Some? then (p1, c) else GetPush(p1, r, ctx, wait, t')
  }

  // ---------- recycle and waste ----------

  /** The storage after a cell was handed to a waiter by recycle: it never left the used list,
      and lost its value if that was not valid any more. */
  function HandedOn(s: StorageState, c: CellId, now: Ticks): StorageState
    requires c in s.cells
  {
    if IsValid(s, c, now) then s else Clear(s, c)
  }

  function Recycle(p: PoolState, c: CellId, now: Ticks): (PoolState, Option<Completion>)
    requires c in p.storage.cells
  {
    var (q, w) := Pop(p.queue);
    if w.None? then (p.(queue := q, storage := StorageSpec.Recycle(p.storage, c, now)), None)
    else (p.(queue := q, storage := HandedOn(p.storage, c, now)),
          Some(Completion(w.value.request, w.value.ctx, Granted(c), Post)))
  }

  function Waste(p: PoolState, c: CellId): (PoolState, Option<Completion>)
    requires c in p.storage.cells
  {
    var (q, w) := Pop(p.queue);
    if w.None? then (p.(queue := q, storage := StorageSpec.Waste(p.storage, c)), None)
    else (p.(queue := q, storage := Clear(p.storage, c)),
          Some(Completion(w.value.request, w.value.ctx, Granted(c), Post)))
  }

  // ---------- disable, invalidate, expiry ----------

  /** One failed completion per waiter, in the given order. */
  function FailAll(ws: seq<Waiter>, error: Error, delivery: Delivery): (r: seq<Completion>)
    ensures |r| == |ws|
    ensures forall i :: 0 <= i < |ws| ==> r[i] == Completion(ws[i].request, ws[i].ctx, Failed(error), delivery)
  {
    seq(|ws|, i requires 0 <= i < |ws| => Completion(ws[i].request, ws[i].ctx, Failed(error), delivery))
  }

  function Drained(q: QueueState): QueueState {
    if q.waiters == [] then q else q.(waiters := [], timers := map[])
  }

  function Disable(p: PoolState): (PoolState, seq<Completion>) {
    (p.(disabled := true, queue := Drained(p.queue)), FailAll(p.queue.waiters, Disabled, Dispatch))
  }

  lemma FailAllFirst(done: seq<Completion>, ws: seq<Waiter>, error: Error, delivery: Delivery)
    requires ws != []
    ensures done + FailAll(ws, error, delivery) ==
            done + [Completion(ws[0].request, ws[0].ctx, Failed(error), delivery)] + FailAll(ws[1..], error, delivery)
  {
  }

  lemma DrainedByPop(q: QueueState)
    requires q.waiters != []
    ensures Drained(QueueSpec.Pop(q).0) == Drained(q)
    ensures QueueSpec.Pop(q).0.waiters == q.waiters[1..]
  {
  }

  function Invalidate(p: PoolState): PoolState {
    p.(storage := StorageSpec.Invalidate(p.storage))
  }

  /** A wait on a timer completes. */
  function Expire(p: PoolState, aborted: bool, t: Ticks): (PoolState, seq<Completion>) {
    var (q, due) := Cancel(p.queue, aborted, t);
    (p.(queue := q), FailAll(due, GetResourceTimeout, Post))
  }

  // ---------- the hand-off against the slow path ----------

  lemma LeaseLoneWasted(t: StorageState, c: CellId, now: Ticks)
    requires t.available == [] && t.wasted == [c] && c in t.cells
    ensures Lease(t, now).1 == Some(c)
    ensures Lease(t, now).0 ==
            t.(wasted := [], used := t.used + [c], cells := t.cells[c := t.cells[c].(wasteOnRecycle := false)])
  {
    assert Emptied(t.cells, []) == t.cells;
    assert Swept(t, 0) == t;
  }

  lemma LeaseLoneAvailable(t: StorageState, c: CellId, now: Ticks)
    requires t.available == [c] && t.wasted == [] && c in t.cells
    ensures Lease(t, now).1 == Some(c)
    ensures t.cells[c].dropTime > now ==> Lease(t, now).0 == t.(available := [], used := t.used + [c])
    ensures t.cells[c].dropTime <= now ==>
              Lease(t, now).0 == t.(available := [], used := t.used + [c],
                                    cells := t.cells[c := t.cells[c].(value := None, wasteOnRecycle := false)])
  {
    if t.cells[c].dropTime > now {
      assert ExpiredPrefix(t.cells, [c], now) == 0;
      assert Emptied(t.cells, []) == t.cells;
      assert Swept(t, 0) == t;
    } else {
      assert ExpiredPrefix(t.cells, [c], now) == 1;
      assert Emptied(t.cells, [c]) == t.cells[c := t.cells[c].(value := None)];
      var u := Swept(t, 1);
      assert u == t.(available := [], wasted := [c], cells := Emptied(t.cells, [c]));
      assert Lease(t, now) == (TakeWasted(u), Some(c));
      assert u.cells[c := u.cells[c].(wasteOnRecycle := false)] ==
             t.cells[c := t.cells[c].(value := None, wasteOnRecycle := false)];
    }
  }

  /** What going through the storage comes to, when there is nothing else to lease. */
  lemma LoneRecycle(s: StorageState, c: CellId, now: Ticks)
    requires WellFormed(s) && c in s.used && c in s.cells
    requires s.available == [] && s.wasted == []
    ensures var fast := HandedOn(s, c, now);
            var (slow, r) := Lease(StorageSpec.Recycle(s, c, now), now);
            && r == Some(c) && c in slow.cells && c in fast.cells
            && (slow.cells[c].value == fast.cells[c].value <==>
                  !IsValid(s, c, now) || s.cells[c].value.None? || s.idleTimeout > 0)
            && slow == fast.(used := Without(s.used, c) + [c],
                             cells := fast.cells[c := Idle(slow.cells[c].value, slow.cells[c].dropTime,
                                                           s.cells[c].resetTime, false)])
  {
    var t := StorageSpec.Recycle(s, c, now);
    DeadlineAhead(now, s.idleTimeout);
    if IsValid(s, c, now) {
      LeaseLoneAvailable(t, c, now);
    } else {
      LeaseLoneWasted(t, c, now);
    }
    var fast, slow := HandedOn(s, c, now), Lease(t, now).0;
    assert slow.cells == fast.cells[c := Idle(slow.cells[c].value, slow.cells[c].dropTime, s.cells[c].resetTime, false)];
  }

  /** Handing a recycled cell to a waiter, against putting it into the storage and leasing at
      once: with nothing else to lease, the first waiter gets the same cell either way, and the same
      value exactly if the cell was invalid or empty or the idle timeout is positive. Everything
      else is the same but the cell's place in the used list, its deadline, and its flag. */
  lemma HandOffAgreesWithStorage(p: PoolState, c: CellId, now: Ticks)
    requires WellFormed(p.storage) && c in p.storage.used && c in p.storage.cells && p.queue.waiters != []
    requires p.storage.available == [] && p.storage.wasted == []
    ensures var s, w := p.storage, p.queue.waiters[0];
            var (q, posted) := Recycle(p, c, now);
            var fast := q.storage;
            var (slow, r) := Lease(StorageSpec.Recycle(s, c, now), now);
            && posted == Some(Completion(w.request, w.ctx, Granted(c), Post))
            && q.queue.waiters == p.queue.waiters[1..] && q.disabled == p.disabled
            && r == Some(c) && c in slow.cells && c in fast.cells
            && (slow.cells[c].value == fast.cells[c].value <==>
                  !IsValid(s, c, now) || s.cells[c].value.None? || s.idleTimeout > 0)
            && slow == fast.(used := Without(s.used, c) + [c],
                             cells := fast.cells[c := Idle(slow.cells[c].value, slow.cells[c].dropTime,
                                                           s.cells[c].resetTime, false)])
  {
    LoneRecycle(p.storage, c, now);
  }

  /** Handing a wasted cell to a waiter, against wasting it and leasing at once: the first waiter gets the
      same cell, without a value, either way. */
  lemma WasteHandOffAgreesWithStorage(p: PoolState, c: CellId, now: Ticks)
    requires WellFormed(p.storage) && c in p.storage.used && c in p.storage.cells && p.queue.waiters != []
    requires p.storage.available == [] && p.storage.wasted == []
    ensures var s, w := p.storage, p.queue.waiters[0];
            var (q, posted) := Waste(p, c);
            var fast := q.storage;
            var (slow, r) := Lease(StorageSpec.Waste(s, c), now);
            && posted == Some(Completion(w.request, w.ctx, Granted(c), Post))
            && q.queue.waiters == p.queue.waiters[1..] && q.disabled == p.disabled
            && r == Some(c) && c in slow.cells && c in fast.cells
            && slow.cells[c].value.None? && fast.cells[c].value.None?
            && slow == fast.(used := Without(s.used, c) + [c],
                             cells := fast.cells[c := fast.cells[c].(wasteOnRecycle := false)])
  {
    LeaseLoneWasted(StorageSpec.Waste(p.storage, c), c, now);
  }

  /** The flag a hand-off leaves up: a value stored after it is kept by the next recycle exactly
      if no invalidation had flagged the cell before, and its life is not over. */
  lemma ValueStoredAfterHandOff(p: PoolState, c: CellId, now: Ticks, v: Value, stored: Ticks, returned: Ticks)
    requires c in p.storage.cells && p.queue.waiters != []
    ensures var s := Recycle(p, c, now).0.storage;
            c in s.cells
            && var t := StorageSpec.Recycle(Put(s, c, v, stored), c, returned);
               c in t.cells
               && (t.cells[c].value == Some(v) <==>
                     !p.storage.cells[c].wasteOnRecycle && Add(stored, p.storage.lifespan) > returned)
  {
  }

  /** After a lease, of whatever cell, only its life counts. */
  lemma ValueStoredAfterLease(s: StorageState, now: Ticks, v: Value, stored: Ticks, returned: Ticks)
    requires WellFormed(s) && Lease(s, now).1.Some?
    ensures var (leased, r) := Lease(s, now);
            r.value in leased.cells
            && var t := StorageSpec.Recycle(Put(leased, r.value, v, stored), r.value, returned);
               r.value in t.cells && (t.cells[r.value].value == Some(v) <==> Add(stored, s.lifespan) > returned)
  {
    LeaseGrants(s, now);
  }
}
