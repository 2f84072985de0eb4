/** Waiters time out: a timer is always set for the next of them, never too early, and every
    firing makes progress. */
module Timeouts {
  import opened TimeTraits
  import opened Sequences
  import opened QueueSpec
  import opened PoolSpec
  import opened HandleSpec
  import opened Protocol
  import opened Completions

  /** While anyone waits, a wait with the earliest deadline is pending on the timer of the io
      context of the waiter it belongs to, or has succeeded and its handler is about to run. */
  ghost predicate Covered(q: QueueState, ready: seq<Ticks>) {
    q.waiters != [] ==> Armed(q) || Earliest(q.waiters).deadline in ready
  }

  /** Deadline of a request that was pushed. */
  function DeadlineOf(s: System, r: RequestId): Ticks
    requires r < |s.asked| && r in s.pushedAt
  {
    Add(s.pushedAt[r], s.asked[r].wait)
  }

  /** Every waiter carries its own request's context and deadline. */
  ghost predicate WaitersMatch(s: System) {
    forall w :: w in s.pool.queue.waiters ==>
      && w.request < |s.asked| && w.request in s.pushedAt
      && w.ctx == s.asked[w.request].ctx && w.deadline == DeadlineOf(s, w.request)
  }

  /** A completion with the timeout error is for a request that would not wait at all, or for one
      whose deadline, counted from its push, has come. */
  ghost predicate Due(s: System, c: Completion) {
    c.outcome == Failed(GetResourceTimeout) ==>
      && c.request < |s.asked|
      && (s.asked[c.request].wait == 0 || (c.request in s.pushedAt && DeadlineOf(s, c.request) <= s.now))
  }

  ghost predicate TimersInv(s: System) {
    && QueueInv(s.pool.queue)
    && Covered(s.pool.queue, s.ready)
    && (forall d :: d in s.ready ==> d <= s.now)
  }

  ghost predicate TimeoutsInv(s: System) {
    WaitersMatch(s) && (forall c :: c in s.log ==> Due(s, c))
  }

  // ---------- timers, one event at a time ----------

  lemma FireKeepsTimers(s: System, ctx: IoContext, at: Ticks)
    requires TimersInv(s) && Enabled(s, Fire(ctx, at))
    ensures TimersInv(AfterFire(s, ctx, at))
  {
    var q := s.pool.queue;
    var t := AfterFire(s, ctx, at);
    assert q.timers[ctx].waits == [q.timers[ctx].expiry];
    if q.waiters != [] && Armed(q) {
      if Earliest(q.waiters).ctx == ctx {
        assert t.ready[|s.ready|] == Earliest(q.waiters).deadline;
      }
    }
  }

  lemma TimerHandlerKeepsTimers(s: System, k: nat, at: Ticks)
    requires TimersInv(s) && k < |s.ready| && at >= s.now
    ensures TimersInv(AfterTimerHandler(s, k, at))
  {
    CancelTimesOutTheDue(s.pool.queue, s.ready[k]);
    var t := AfterTimerHandler(s, k, at);
    assert t.pool.queue == Cancel(s.pool.queue, false, s.ready[k]).0 && t.ready == Cut(s.ready, k);
    forall d | d in Cut(s.ready, k) ensures d in s.ready && d <= at {
    }
    assert QueueInv(t.pool.queue) && Armed(t.pool.queue);
  }

  lemma ReturnKeepsTimers(s: System, h: nat, how: Strategy, at: Ticks)
    requires TimersInv(s) && InPool(s, h) && at >= s.now
    ensures TimersInv(AfterReturn(s, h, how, at))
  {
    PopKeepsInv(s.pool.queue);
  }

  lemma EnqueueKeepsTimers(s: System, k: nat, at: Ticks)
    requires TimersInv(s) && k < |s.leaving| && s.leaving[k] < |s.asked| && at >= s.now
    ensures TimersInv(AfterEnqueue(s, k, at))
  {
    PushKeepsInv(s.pool.queue, s.asked[s.leaving[k]].ctx, s.asked[s.leaving[k]].wait, s.leaving[k], at);
  }

  lemma DrainKeepsTimers(s: System)
    requires TimersInv(s)
    ensures TimersInv(AfterDrainOne(s))
  {
    PopKeepsInv(s.pool.queue);
  }

  lemma SameQueueKeepsTimers(s: System, t: System)
    requires TimersInv(s) && t.pool.queue == s.pool.queue && t.ready == s.ready && t.now >= s.now
    ensures TimersInv(t)
  {
  }

  lemma EventKeepsTimers(s: System, e: Event)
    requires TimersInv(s) && Enabled(s, e)
    ensures TimersInv(After(s, e))
  {
    match e
    case Enqueue(k, at) => EnqueueKeepsTimers(s, k, at);
    case Return(h, how, at) => ReturnKeepsTimers(s, h, how, at);
    case Destroy(h, at) => ReturnKeepsTimers(s, h, s.handles[h].strategy, at);
    case Assign(h, from, at) => ReturnKeepsTimers(s, h, s.handles[h].strategy, at);
    case DrainOne => DrainKeepsTimers(s);
    case Fire(ctx, at) => FireKeepsTimers(s, ctx, at);
    case TimerHandler(k, at) => TimerHandlerKeepsTimers(s, k, at);
    case _ => SameQueueKeepsTimers(s, After(s, e));
  }

  // ---------- timeouts, one event at a time ----------

  /** Nothing that WaitersMatch and Due look at has changed but the clock. */
  lemma LaterStillDue(s: System, t: System, cs: seq<Completion>)
    requires TimeoutsInv(s)
    requires t.log == s.log + cs && s.asked <= t.asked && t.pushedAt == s.pushedAt && t.now >= s.now
    requires forall w :: w in t.pool.queue.waiters ==> w in s.pool.queue.waiters
    requires forall i :: 0 <= i < |cs| ==> Due(t, cs[i])
    ensures TimeoutsInv(t)
  {
    forall c | c in t.log ensures Due(t, c) {
      if c in s.log {
        assert Due(s, c);
      } else {
        assert c in cs;
      }
    }
  }

  lemma CallKeepsTimeouts(s: System, ask: Ask, at: Ticks)
    requires TimeoutsInv(s) && at >= s.now
    ensures TimeoutsInv(AfterCall(s, ask, at))
  {
    var c := GetBegin(s.pool, |s.asked|, ask.ctx, ask.wait, at).1;
    LaterStillDue(s, AfterCall(s, ask, at), Given(c));
  }

  lemma PushedOnce(s: System, k: nat)
    requires Accounted(s) && k < |s.leaving|
    ensures forall c :: c in s.log ==> c.request != s.leaving[k]
    ensures forall w :: w in s.pool.queue.waiters ==> w.request != s.leaving[k]
  {
    PlacesApart(s);
    assert s.leaving[k] in s.leaving;
  }

  /** A request is pushed. */
  lemma PushKeepsTimeouts(s: System, t: System, r: RequestId, w: Waiter)
    requires TimeoutsInv(s) && r < |s.asked| && t.asked == s.asked && t.log == s.log && t.now >= s.now
    requires forall c :: c in s.log ==> c.request != r
    requires forall v :: v in s.pool.queue.waiters ==> v.request != r
    requires t.pushedAt == s.pushedAt[r := t.now] && t.pool.queue.waiters == s.pool.queue.waiters + [w]
    requires w.request == r && w.ctx == s.asked[r].ctx && w.deadline == Add(t.now, s.asked[r].wait)
    ensures TimeoutsInv(t)
  {
    forall d | d in t.log ensures Due(t, d) {
      assert Due(s, d);
    }
  }

  lemma EnqueueKeepsTimeouts(s: System, k: nat, at: Ticks)
    requires TimeoutsInv(s) && Accounted(s) && at >= s.now && k < |s.leaving| && s.leaving[k] < |s.asked|
    ensures TimeoutsInv(AfterEnqueue(s, k, at))
  {
    var r := s.leaving[k];
    var c := GetPush(s.pool, r, s.asked[r].ctx, s.asked[r].wait, at).1;
    var t := AfterEnqueue(s, k, at);
    if c.Some? {
      LaterStillDue(s, t, Given(c));
    } else {
      PushedOnce(s, k);
      assert s.log + [] == s.log;
      PushKeepsTimeouts(s, t, r, Waiter(r, s.asked[r].ctx, Add(at, s.asked[r].wait), s.pool.queue.nextTicket));
    }
  }

  lemma ReturnKeepsTimeouts(s: System, h: nat, how: Strategy, at: Ticks)
    requires TimeoutsInv(s) && InPool(s, h) && at >= s.now
    ensures TimeoutsInv(AfterReturn(s, h, how, at))
  {
    if s.handles[h].cell.Some? {
      LaterStillDue(s, AfterReturn(s, h, how, at), Given(Release(s.pool, how, s.handles[h].cell.value, at).1));
    } else {
      LaterStillDue(s, AfterReturn(s, h, how, at), []);
    }
  }

  lemma FailedAreDue(s: System, t: System, due: seq<Waiter>)
    requires WaitersMatch(s) && t.asked == s.asked && t.pushedAt == s.pushedAt
    requires forall w :: w in due ==> w in s.pool.queue.waiters && w.deadline <= t.now
    ensures forall c :: c in FailAll(due, GetResourceTimeout, Post) ==> Due(t, c)
  {
    var cs := FailAll(due, GetResourceTimeout, Post);
    forall c | c in cs ensures Due(t, c) {
      var i :| 0 <= i < |cs| && cs[i] == c;
      assert due[i] in due;
    }
  }

  lemma TimerHandlerKeepsTimeouts(s: System, k: nat, at: Ticks)
    requires TimeoutsInv(s) && TimersInv(s) && k < |s.ready| && at >= s.now
    ensures TimeoutsInv(AfterTimerHandler(s, k, at))
  {
    var d := s.ready[k];
    var due := Cancel(s.pool.queue, false, d).1;
    var cs := FailAll(due, GetResourceTimeout, Post);
    var t := AfterTimerHandler(s, k, at);
    CancelTimesOutTheDue(s.pool.queue, d);
    assert d in s.ready;
    FailedAreDue(s, t, due);
    LaterStillDue(s, t, cs);
  }

  lemma QuietKeepsTimeouts(s: System, t: System)
    requires TimeoutsInv(s)
    requires t.log == s.log && t.asked == s.asked && t.pushedAt == s.pushedAt && t.now >= s.now
    requires t.pool.queue.waiters == s.pool.queue.waiters
    ensures TimeoutsInv(t)
  {
    assert forall c :: c in s.log ==> Due(s, c);
  }

  lemma AssignKeepsTimeouts(s: System, h: nat, from: nat, at: Ticks)
    requires TimeoutsInv(s) && InPool(s, h) && from < |s.handles| && at >= s.now
    ensures TimeoutsInv(AfterAssign(s, h, from, at))
  {
    ReturnKeepsTimeouts(s, h, s.handles[h].strategy, at);
    QuietKeepsTimeouts(AfterReturn(s, h, s.handles[h].strategy, at), AfterAssign(s, h, from, at));
  }

  lemma DrainKeepsTimeouts(s: System)
    requires TimeoutsInv(s)
    ensures TimeoutsInv(AfterDrainOne(s))
  {
    if s.pool.queue.waiters == [] {
      QuietKeepsTimeouts(s, AfterDrainOne(s));
    } else {
      LaterStillDue(s, AfterDrainOne(s), [Refused(s.pool.queue.waiters[0])]);
    }
  }

  lemma EventKeepsTimeouts(s: System, e: Event)
    requires TimeoutsInv(s) && TimersInv(s) && Accounted(s) && Enabled(s, e)
    ensures TimeoutsInv(After(s, e))
  {
    match e
    case Call(ask, at) => CallKeepsTimeouts(s, ask, at);
    case Enqueue(k, at) => EnqueueKeepsTimeouts(s, k, at);
    case Return(h, how, at) => ReturnKeepsTimeouts(s, h, how, at);
    case Destroy(h, at) => ReturnKeepsTimeouts(s, h, s.handles[h].strategy, at);
    case Assign(h, from, at) => AssignKeepsTimeouts(s, h, from, at);
    case DrainOne => DrainKeepsTimeouts(s);
    case TimerHandler(k, at) => TimerHandlerKeepsTimeouts(s, k, at);
    case _ =>
      QuietEvent(s, e);
      QuietKeepsTimeouts(s, After(s, e));
  }

  // ---------- every run ----------

  lemma StartIsTimely(stock: Stock, queueCapacity: nat, idle: Ticks, life: Ticks, now: Ticks)
    ensures TimersInv(Start(stock, queueCapacity, idle, life, now)) && TimeoutsInv(Start(stock, queueCapacity, idle, life, now))
  {
  }

  lemma {:induction false} RunsKeepTimeouts(s: System, es: seq<Event>)
    requires TimersInv(s) && TimeoutsInv(s) && Accounted(s) && CanRun(s, es)
    ensures TimersInv(RunAll(s, es)) && TimeoutsInv(RunAll(s, es))
    decreases |es|
  {
    if es != [] {
      EventKeepsTimers(s, es[0]);
      EventKeepsTimeouts(s, es[0]);
      EventKeepsAccounted(s, es[0]);
      RunsKeepTimeouts(After(s, es[0]), es[1..]);
    }
  }

  /** In every state of every run: whoever waits, a timer is set for the earliest deadline; waits
      succeed only when their deadline has come; and no request has been failed with the timeout
      error before its own deadline, unless it asked not to wait. */
  lemma TimeoutsAreTimely(s: System)
    requires Reachable(s)
    ensures |s.pool.queue.waiters| <= s.pool.queue.capacity
    ensures Covered(s.pool.queue, s.ready)
    ensures forall d :: d in s.ready ==> d <= s.now
    ensures WaitersMatch(s)
    ensures forall c :: c in s.log ==> Due(s, c)
  {
    var stock, queueCapacity, idle, life, now, es :| Reaches(stock, queueCapacity, idle, life, now, es, s);
    var s0 := Start(stock, queueCapacity, idle, life, now);
    StartIsAccounted(stock, queueCapacity, idle, life, now);
    StartIsTimely(stock, queueCapacity, idle, life, now);
    RunsKeepTimeouts(s0, es);
  }

  // ---------- progress ----------

  /** The handler that runs is one for a deadline some waiter has reached. */
  predicate Expires(s: System, e: Event) {
    && e.TimerHandler? && e.k < |s.ready|
    && s.pool.queue.waiters != [] && s.ready[e.k] >= Earliest(s.pool.queue.waiters).deadline
  }

  function Expirations(s: System, es: seq<Event>): nat
    requires CanRun(s, es)
    decreases |es|
  {
    if es == [] then 0
    else (if Expires(s, es[0]) then 1 else 0) + Expirations(After(s, es[0]), es[1..])
  }

  lemma ReturnTakesAWaiter(s: System, h: nat, how: Strategy, at: Ticks)
    requires InPool(s, h)
    ensures |AfterReturn(s, h, how, at).pool.queue.waiters| <= |s.pool.queue.waiters|
  {
  }

  lemma TimerHandlerShrinks(s: System, k: nat, at: Ticks)
    requires TimersInv(s) && k < |s.ready|
    ensures |AfterTimerHandler(s, k, at).pool.queue.waiters| + (if Expires(s, TimerHandler(k, at)) then 1 else 0)
            <= |s.pool.queue.waiters|
  {
    SplitKeepsAll(s.pool.queue.waiters, s.ready[k]);
    assert AfterTimerHandler(s, k, at).pool.queue == Cancel(s.pool.queue, false, s.ready[k]).0;
    assert |Cancel(s.pool.queue, false, s.ready[k]).0.waiters| <= |s.pool.queue.waiters|;
    if Expires(s, TimerHandler(k, at)) {
      ArmedWaitMakesProgress(s.pool.queue, s.ready[k]);
    }
  }

  lemma OthersDoNotPush(s: System, e: Event)
    requires Enabled(s, e) && !e.Enqueue? && !e.TimerHandler?
    ensures |After(s, e).pool.queue.waiters| <= |s.pool.queue.waiters|
  {
    match e
    case Return(h, how, at) => ReturnTakesAWaiter(s, h, how, at);
    case Destroy(h, at) => ReturnTakesAWaiter(s, h, s.handles[h].strategy, at);
    case Assign(h, from, at) => ReturnTakesAWaiter(s, h, s.handles[h].strategy, at);
    case Call(ask, at) => assert AfterCall(s, ask, at).pool.queue == s.pool.queue;
    case DrainOne =>
    case _ => QuietEvent(s, e);
  }

  lemma WaitersShrink(s: System, e: Event)
    requires TimersInv(s) && Enabled(s, e) && !e.Enqueue?
    ensures |After(s, e).pool.queue.waiters| + (if Expires(s, e) then 1 else 0) <= |s.pool.queue.waiters|
  {
    if e.TimerHandler? {
      TimerHandlerShrinks(s, e.k, e.at);
    } else {
      OthersDoNotPush(s, e);
    }
  }

  /** Without new pushes, timers expire waiters no more often than there are waiters. */
  lemma {:induction false} ExpirationsAreBounded(s: System, es: seq<Event>)
    requires TimersInv(s) && CanRun(s, es) && forall e :: e in es ==> !e.Enqueue?
    ensures Expirations(s, es) + |RunAll(s, es).pool.queue.waiters| <= |s.pool.queue.waiters|
    decreases |es|
  {
    if es != [] {
      WaitersShrink(s, es[0]);
      EventKeepsTimers(s, es[0]);
      ExpirationsAreBounded(After(s, es[0]), es[1..]);
    }
  }
}
