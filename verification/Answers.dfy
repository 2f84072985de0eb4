/** What each event answers, to whom and with what; and over every run, the cause of each answer. */
module Answers {
  import opened Wrappers
  import opened TimeTraits
  import opened Sequences
  import opened StorageSpec
  import opened StorageLaws
  import opened QueueSpec
  import opened PoolSpec
  import opened HandleSpec
  import opened Protocol
  import opened Ownership
  import opened Completions
  import opened Timeouts
  import opened Divided

  // ---------- event by event ----------

  /** The event adds these completions, and their handlers are pending. */
  ghost predicate Adds(s: System, t: System, cs: seq<Completion>) {
    t.log == s.log + cs && t.pending == s.pending + cs
  }

  /** A call of get is answered at once if the pool is disabled, or if a cell is free, or if the request does
      not wait; otherwise it is on its way to the queue. */
  ghost predicate AnswersOrLeaves(s: System, ask: Ask, at: Ticks, t: System) {
    var n := |s.asked|;
    && t.asked == s.asked + [ask] && t.pool.queue == s.pool.queue && t.pool.disabled == s.pool.disabled
    && t.pushedAt == s.pushedAt
    && (s.pool.disabled ==>
          && Adds(s, t, [Completion(n, ask.ctx, Failed(Disabled), Dispatch)])
          && t.pool.storage == s.pool.storage && t.leaving == s.leaving)
    && (!s.pool.disabled && CellFree(s.pool) ==>
          var (leased, c) := Lease(s.pool.storage, at);
          && c.Some? && Adds(s, t, [Completion(n, ask.ctx, Granted(c.value), Post)])
          && t.pool.storage == leased && t.leaving == s.leaving)
    && (!s.pool.disabled && !CellFree(s.pool) && ask.wait == 0 ==>
          && Adds(s, t, [Completion(n, ask.ctx, Failed(GetResourceTimeout), Post)])
          && t.pool.storage == s.pool.storage && t.leaving == s.leaving)
    && (!s.pool.disabled && !CellFree(s.pool) && ask.wait != 0 ==>
          && Adds(s, t, []) && t.pool.storage == s.pool.storage && t.leaving == s.leaving + [n])
  }

  lemma CallAnswersOrLeaves(s: System, ask: Ask, at: Ticks)
    requires WellFormed(s.pool.storage)
    ensures AnswersOrLeaves(s, ask, at, AfterCall(s, ask, at))
  {
    LeaseFailsIffAllUsed(s.pool.storage, at);
  }

  /** A request on its way is queued if there is room, and refused if not. */
  lemma EnqueueQueuesOrRefuses(s: System, k: nat, at: Ticks)
    requires k < |s.leaving| && s.leaving[k] < |s.asked|
    ensures var r, q, t := s.leaving[k], s.pool.queue, AfterEnqueue(s, k, at);
            && t.leaving == Cut(s.leaving, k) && t.pool.storage == s.pool.storage && t.pool.disabled == s.pool.disabled
            && (HasRoom(q) ==>
                  && Adds(s, t, []) && t.pushedAt == s.pushedAt[r := at]
                  && t.pool.queue.waiters ==
                     q.waiters + [Waiter(r, s.asked[r].ctx, Add(at, s.asked[r].wait), q.nextTicket)])
            && (!HasRoom(q) ==>
                  && Adds(s, t, [Completion(r, s.asked[r].ctx, Failed(RequestQueueOverflow), Post)])
                  && t.pushedAt == s.pushedAt && t.pool.queue == q)
  {
  }

  /** Nothing in the storage has changed but the value of a cell. */
  ghost predicate HandsOn(s: StorageState, t: StorageState, c: CellId) {
    && t.available == s.available && t.used == s.used && t.wasted == s.wasted
    && OnlyDiffer(s, t, [c]) && c in s.cells && t.cells[c] == s.cells[c].(value := t.cells[c].value)
  }

  /** A cell given back goes to the first waiter, and to the storage if there is none. When it is wasted its
      value is destroyed either way; when it is recycled and handed on, only if it is not valid any more. */
  lemma ReturnServesOrStores(s: System, h: nat, how: Strategy, at: Ticks)
    requires Owned(s) && InPool(s, h) && s.handles[h].cell.Some?
    ensures var c, ws, t := s.handles[h].cell.value, s.pool.queue.waiters, AfterReturn(s, h, how, at);
            && t.handles == s.handles[h := s.handles[h].(cell := None)]
            && c in t.pool.storage.cells
            && (how == UseWaste ==> t.pool.storage.cells[c].value == None)
            && (ws != [] ==>
                  && Adds(s, t, [Completion(ws[0].request, ws[0].ctx, Granted(c), Post)])
                  && t.pool.queue.waiters == ws[1..] && HandsOn(s.pool.storage, t.pool.storage, c)
                  && (how == UseRecycle ==>
                        t.pool.storage.cells[c].value ==
                        if IsValid(s.pool.storage, c, at) then s.pool.storage.cells[c].value else None))
            && (ws == [] ==>
                  && Adds(s, t, []) && t.pool.queue == s.pool.queue
                  && (how == UseRecycle ==> t.pool.storage == StorageSpec.Recycle(s.pool.storage, c, at))
                  && (how == UseWaste ==> t.pool.storage == StorageSpec.Waste(s.pool.storage, c)))
  {
  }

  /** A turn of the loop of disable fails the first waiter with the disabled error. */
  lemma DrainFailsFirst(s: System)
    ensures var ws, t := s.pool.queue.waiters, AfterDrainOne(s);
            && (ws != [] ==>
                  && Adds(s, t, [Completion(ws[0].request, ws[0].ctx, Failed(Disabled), Dispatch)])
                  && t.pool.queue.waiters == ws[1..] && t.draining == s.draining)
            && (ws == [] ==> t == s.(draining := false))
  {
  }

  /** When a wait for deadline d has succeeded, its handler takes exactly the waiters due by d off the queue
      and fails each of them with the timeout error, in the order of deadlines and then of arrival. */
  lemma TimerHandlerFailsTheDue(s: System, k: nat, at: Ticks) returns (due: seq<Waiter>)
    requires TimersInv(s) && k < |s.ready|
    ensures Expiring(due) && forall w :: w in due <==> w in s.pool.queue.waiters && w.deadline <= s.ready[k]
    ensures var t := AfterTimerHandler(s, k, at);
            && s.log <= t.log && |t.log| == |s.log| + |due|
            && t.pending == s.pending + t.log[|s.log|..]
            && (forall i :: 0 <= i < |due| ==>
                  t.log[|s.log| + i] == Completion(due[i].request, due[i].ctx, Failed(GetResourceTimeout), Post))
            && (forall w :: w in t.pool.queue.waiters <==> w in s.pool.queue.waiters && w.deadline > s.ready[k])
  {
    CancelTimesOutTheDue(s.pool.queue, s.ready[k]);
    due := ByDeadline(UpTo(s.pool.queue.waiters, s.ready[k]));
    var cs := Expire(s.pool, false, s.ready[k]).1;
    assert (s.log + cs)[|s.log|..] == cs;
  }

  /** A handler that runs is given a handle: to the cell it was granted, with the strategy that was asked for,
      or an unusable one. */
  lemma HandlerGetsHandle(s: System, k: nat)
    requires k < |s.pending| && s.pending[k].request < |s.asked|
    ensures var c, t := s.pending[k], AfterRun(s, k);
            && t.pending == Cut(s.pending, k) && t.ran == s.ran + [c] && t.pool == s.pool && t.log == s.log
            && |t.handles| == |s.handles| + 1 && t.handles[..|s.handles|] == s.handles
            && t.handles[|s.handles|].cell == (if c.outcome.Granted? then Some(c.outcome.cell) else None)
            && (c.outcome.Granted? ==> t.handles[|s.handles|].strategy == s.asked[c.request].strategy)
  {
  }

  // ---------- over every run ----------

  /** What has led to an answer. */
  ghost predicate HasCause(s: System, c: Completion) {
    && c.request < |s.asked| && c.ctx == s.asked[c.request].ctx
    && (c.delivery == Dispatch <==> c.outcome == Failed(Disabled))
    && match c.outcome
       case Granted(_) => true
       case Failed(Disabled) => s.pool.disabled
       case Failed(RequestQueueOverflow) => s.asked[c.request].wait != 0 && c.request !in s.pushedAt
       case Failed(GetResourceTimeout) => s.asked[c.request].wait == 0 <==> c.request !in s.pushedAt
  }

  /** A request that waits, queued or on its way to it. */
  ghost predicate MayWait(s: System, r: RequestId, queued: bool) {
    r < |s.asked| && s.asked[r].wait != 0 && (queued <==> r in s.pushedAt)
  }

  ghost predicate Caused(s: System) {
    && (forall c :: c in s.log ==> HasCause(s, c))
    && (forall r :: r in s.leaving ==> MayWait(s, r, false))
    && (forall w :: w in s.pool.queue.waiters ==> MayWait(s, w.request, true))
    && (forall r :: r in s.pushedAt ==> r < |s.asked|)
  }

  /** Nothing that bears on the causes of old answers has changed. */
  ghost predicate Follows(s: System, t: System) {
    && s.asked <= t.asked && (s.pool.disabled ==> t.pool.disabled) && t.pushedAt == s.pushedAt
  }

  lemma MoreCaused(s: System, t: System, cs: seq<Completion>)
    requires Caused(s) && Follows(s, t) && t.log == s.log + cs
    requires forall c :: c in cs ==> HasCause(t, c)
    requires forall r :: r in t.leaving ==> r in s.leaving || MayWait(t, r, false)
    requires forall w :: w in t.pool.queue.waiters ==> w in s.pool.queue.waiters
    ensures Caused(t)
  {
    forall c | c in t.log ensures HasCause(t, c) {
      if c in s.log {
        assert HasCause(s, c);
      } else {
        assert c in cs;
      }
    }
    forall r | r in t.leaving ensures MayWait(t, r, false) {
      if r in s.leaving {
        assert MayWait(s, r, false);
      }
    }
    forall w | w in t.pool.queue.waiters ensures MayWait(t, w.request, true) {
      assert MayWait(s, w.request, true);
    }
  }

  lemma CallIsCaused(s: System, ask: Ask, at: Ticks, t: System)
    requires Caused(s) && AnswersOrLeaves(s, ask, at, t)
    ensures Caused(t)
  {
    var n := |s.asked|;
    var cs := t.log[|s.log|..];
    assert t.log == s.log + cs;
    assert t.asked[n] == ask && n !in s.pushedAt;
    MoreCaused(s, t, cs);
  }

  lemma PushIsCaused(s: System, t: System, k: nat, w: Waiter)
    requires Caused(s) && Accounted(s) && k < |s.leaving| && w.request == s.leaving[k]
    requires t.asked == s.asked && t.pool.disabled == s.pool.disabled && t.log == s.log && t.leaving == Cut(s.leaving, k)
    requires t.pushedAt.Keys == s.pushedAt.Keys + {w.request} && t.pool.queue.waiters == s.pool.queue.waiters + [w]
    ensures Caused(t)
  {
    PlacesApart(s);
    assert w.request in s.leaving && MayWait(s, w.request, false);
    forall c | c in t.log ensures HasCause(t, c) {
      assert HasCause(s, c) && c.request != w.request;
    }
    LeavingIsDistinct(s);
    CutMembers(s.leaving, k);
    forall r | r in t.leaving ensures MayWait(t, r, false) {
      assert MayWait(s, r, false);
    }
    forall v | v in t.pool.queue.waiters ensures MayWait(t, v.request, true) {
      if v != w {
        assert v in s.pool.queue.waiters && MayWait(s, v.request, true);
      }
    }
  }

  lemma LeavingIsDistinct(s: System)
    requires Accounted(s)
    ensures Distinct(s.leaving)
  {
    forall i, j | 0 <= i < j < |s.leaving| && s.leaving[i] == s.leaving[j] ensures false {
      CountTwo(s.leaving, i, j);
    }
  }

  lemma EnqueueIsCaused(s: System, k: nat, at: Ticks)
    requires Caused(s) && Accounted(s) && k < |s.leaving| && s.leaving[k] < |s.asked|
    ensures Caused(AfterEnqueue(s, k, at))
  {
    var r, t := s.leaving[k], AfterEnqueue(s, k, at);
    EnqueueQueuesOrRefuses(s, k, at);
    if HasRoom(s.pool.queue) {
      assert t.log == s.log;
      PushIsCaused(s, t, k, Waiter(r, s.asked[r].ctx, Add(at, s.asked[r].wait), s.pool.queue.nextTicket));
    } else {
      assert r in s.leaving && MayWait(s, r, false);
      assert forall q :: q in Cut(s.leaving, k) ==> q in s.leaving;
      MoreCaused(s, t, [Completion(r, s.asked[r].ctx, Failed(RequestQueueOverflow), Post)]);
    }
  }

  /** Completion c, if any, goes to the first waiter. */
  lemma ServiceIsCaused(s: System, t: System, c: Option<Completion>)
    requires Caused(s) && WaitersMatch(s) && Follows(s, t) && t.log == s.log + Given(c) && t.leaving == s.leaving
    requires forall w :: w in t.pool.queue.waiters ==> w in s.pool.queue.waiters
    requires c.Some? ==>
               && s.pool.queue.waiters != [] && c.value.outcome.Granted? && c.value.delivery == Post
               && c.value.request == s.pool.queue.waiters[0].request && c.value.ctx == s.pool.queue.waiters[0].ctx
    ensures Caused(t)
  {
    if c.Some? {
      assert s.pool.queue.waiters[0] in s.pool.queue.waiters;
    }
    MoreCaused(s, t, Given(c));
  }

  lemma ReturnIsCaused(s: System, h: nat, how: Strategy, at: Ticks)
    requires Caused(s) && WaitersMatch(s) && InPool(s, h)
    ensures Caused(AfterReturn(s, h, how, at))
  {
    var t := AfterReturn(s, h, how, at);
    if s.handles[h].cell.Some? {
      var c := Release(s.pool, how, s.handles[h].cell.value, at).1;
      assert t.log == s.log + Given(c) && Follows(s, t);
      ServiceIsCaused(s, t, c);
    }
  }

  lemma GiveBackIsCaused(s: System, e: Event)
    requires Caused(s) && WaitersMatch(s) && Enabled(s, e) && (e.Return? || e.Destroy? || e.Assign?)
    ensures Caused(After(s, e))
  {
    match e
    case Return(h, how, at) => ReturnIsCaused(s, h, how, at);
    case Destroy(h, at) => ReturnIsCaused(s, h, s.handles[h].strategy, at);
    case Assign(h, from, at) => ReturnIsCaused(s, h, s.handles[h].strategy, at);
  }

  lemma DrainIsCaused(s: System)
    requires Caused(s) && WaitersMatch(s) && s.pool.disabled
    ensures Caused(AfterDrainOne(s))
  {
    var ws := s.pool.queue.waiters;
    DrainFailsFirst(s);
    if ws != [] {
      assert ws[0] in ws;
      MoreCaused(s, AfterDrainOne(s), [Completion(ws[0].request, ws[0].ctx, Failed(Disabled), Dispatch)]);
    }
  }

  lemma TimerHandlerIsCaused(s: System, k: nat, at: Ticks)
    requires Caused(s) && TimersInv(s) && WaitersMatch(s) && k < |s.ready|
    ensures Caused(AfterTimerHandler(s, k, at))
  {
    var t := AfterTimerHandler(s, k, at);
    var due := TimerHandlerFailsTheDue(s, k, at);
    var cs := t.log[|s.log|..];
    assert t.log == s.log + cs;
    forall c | c in cs ensures HasCause(t, c) {
      var i :| 0 <= i < |cs| && cs[i] == c;
      assert t.log[|s.log| + i] == c && due[i] in due;
      assert MayWait(s, due[i].request, true);
    }
    MoreCaused(s, t, cs);
  }

  /** The pool is being drained only while it is disabled. */
  ghost predicate DrainsDisabled(s: System) {
    s.draining ==> s.pool.disabled
  }

  ghost predicate Steady(s: System) {
    Owned(s) && Accounted(s) && TimersInv(s) && TimeoutsInv(s) && DrainsDisabled(s)
  }

  lemma ReturnKeepsDrain(s: System, h: nat, how: Strategy, at: Ticks)
    requires DrainsDisabled(s) && InPool(s, h)
    ensures DrainsDisabled(AfterReturn(s, h, how, at))
  {
  }

  lemma EventKeepsDrain(s: System, e: Event)
    requires DrainsDisabled(s) && Enabled(s, e)
    ensures DrainsDisabled(After(s, e))
  {
    match e
    case Return(h, how, at) => ReturnKeepsDrain(s, h, how, at);
    case Destroy(h, at) => ReturnKeepsDrain(s, h, s.handles[h].strategy, at);
    case Assign(h, from, at) => ReturnKeepsDrain(s, h, s.handles[h].strategy, at);
    case Call(ask, at) =>
    case Enqueue(k, at) =>
    case DrainOne =>
    case TimerHandler(k, at) =>
    case _ => QuietEvent(s, e);
  }

  lemma EventKeepsSteady(s: System, e: Event)
    requires Steady(s) && Enabled(s, e)
    ensures Steady(After(s, e))
  {
    EventKeepsOwned(s, e);
    EventKeepsAccounted(s, e);
    EventKeepsTimers(s, e);
    EventKeepsTimeouts(s, e);
    EventKeepsDrain(s, e);
  }

  lemma QuietIsCaused(s: System, e: Event)
    requires Caused(s) && Enabled(s, e) && IsQuiet(e)
    ensures Caused(After(s, e))
  {
    QuietEvent(s, e);
    assert s.log + [] == s.log;
    MoreCaused(s, After(s, e), []);
  }

  lemma EventIsCaused(s: System, e: Event)
    requires Caused(s) && Steady(s) && Enabled(s, e)
    ensures Caused(After(s, e))
  {
    match e
    case Call(ask, at) =>
      CallAnswersOrLeaves(s, ask, at);
      CallIsCaused(s, ask, at, AfterCall(s, ask, at));
    case Enqueue(k, at) => EnqueueIsCaused(s, k, at);
    case Return(_, _, _) => GiveBackIsCaused(s, e);
    case Destroy(_, _) => GiveBackIsCaused(s, e);
    case Assign(_, _, _) => GiveBackIsCaused(s, e);
    case DrainOne => DrainIsCaused(s);
    case TimerHandler(k, at) => TimerHandlerIsCaused(s, k, at);
    case _ => QuietIsCaused(s, e);
  }

  lemma {:induction false} RunsAreCaused(s: System, es: seq<Event>)
    requires Caused(s) && Steady(s) && CanRun(s, es)
    ensures Caused(RunAll(s, es))
    decreases |es|
  {
    if es != [] {
      EventIsCaused(s, es[0]);
      EventKeepsSteady(s, es[0]);
      RunsAreCaused(After(s, es[0]), es[1..]);
    }
  }

  lemma StartIsCaused(stock: Stock, queueCapacity: nat, idle: Ticks, life: Ticks, now: Ticks)
    ensures Caused(Start(stock, queueCapacity, idle, life, now)) && Steady(Start(stock, queueCapacity, idle, life, now))
  {
    StartIsOwned(stock, queueCapacity, idle, life, now);
    StartIsAccounted(stock, queueCapacity, idle, life, now);
    StartIsTimely(stock, queueCapacity, idle, life, now);
  }

  /** In every reachable state: each answer is in the io context that was asked for. The overflow error has
      gone only to requests that would wait and never got into the queue; the disabled error only out of a
      disabled pool; the timeout error only to requests that would not wait, and to ones that were
      queued. And a request that would not wait is neither queued nor on its way to it. */
  lemma EveryAnswerHasItsCause(s: System)
    requires Reachable(s)
    ensures forall c :: c in s.log ==> HasCause(s, c)
    ensures forall r :: r in s.leaving ==> MayWait(s, r, false)
    ensures forall w :: w in s.pool.queue.waiters ==> MayWait(s, w.request, true)
  {
    var stock, queueCapacity, idle, life, now, es :| Reaches(stock, queueCapacity, idle, life, now, es, s);
    StartIsCaused(stock, queueCapacity, idle, life, now);
    RunsAreCaused(Start(stock, queueCapacity, idle, life, now), es);
  }
}
