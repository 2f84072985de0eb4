/** What is left of fairness when other events come between the two parts of get. A request can be
    left waiting beside a free cell or in a disabled pool, and cells can be granted out of the order of
    the calls; for each of these, and for the order of the whole line, exactly when, over whole runs. */
module Divided {
  import opened Wrappers
  import opened TimeTraits
  import opened Sequences
  import opened StorageSpec
  import opened QueueSpec
  import opened PoolSpec
  import opened HandleSpec
  import opened Protocol
  import opened Ownership
  import opened Completions
  import opened Timeouts
  import opened Fairness

  // ---------- waiting in vain ----------

  predicate CellFree(p: PoolState) {
    p.storage.available != [] || p.storage.wasted != []
  }

  predicate HasRoom(q: QueueState) {
    |q.waiters| < q.capacity
  }

  /** A request is queued at a moment when a cell is free. */
  predicate Strands(s: System, e: Event) {
    e.Enqueue? && HasRoom(s.pool.queue) && CellFree(s.pool)
  }

  /** A request is queued in a pool that has been disabled and drained. */
  predicate Traps(s: System, e: Event) {
    e.Enqueue? && HasRoom(s.pool.queue) && s.pool.disabled && !s.draining
  }

  /** The event gives a cell back. */
  predicate GivesBack(s: System, e: Event) {
    match e
    case Return(h, _, _) => h < |s.handles| && s.handles[h].cell.Some?
    case Destroy(h, _) => h < |s.handles| && s.handles[h].cell.Some?
    case Assign(h, _, _) => h < |s.handles| && s.handles[h].cell.Some?
    case _ => false
  }

  lemma QuietFreesNothing(s: System, e: Event)
    requires Enabled(s, e) && IsQuiet(e)
    ensures CellFree(After(s, e).pool) == CellFree(s.pool)
  {
    if SparesStorage(e) {
      StorageSpared(s, e);
    }
  }

  lemma CallStrandsNobody(s: System, ask: Ask, at: Ticks)
    requires Owned(s)
    ensures Conserving(s.pool) ==> Conserving(AfterCall(s, ask, at).pool)
    ensures Closed(s) ==> Closed(AfterCall(s, ask, at))
  {
    LeaseFailsIffAllUsed(s.pool.storage, at);
  }

  lemma ShrinkingStrandsNobody(s: System, t: System)
    requires t.pool.storage == s.pool.storage && t.pool.disabled == s.pool.disabled
    requires s.pool.queue.waiters == [] ==> t.pool.queue.waiters == []
    requires t.draining == s.draining || t.pool.queue.waiters == []
    ensures Conserving(s.pool) ==> Conserving(t.pool)
    ensures Closed(s) ==> Closed(t)
  {
  }

  /** Of all events only the second part of get can leave somebody waiting while a cell is free,
      or in a disabled pool. */
  lemma OnlyEnqueueStrands(s: System, e: Event)
    requires Owned(s) && Enabled(s, e) && !e.Enqueue?
    ensures Conserving(s.pool) ==> Conserving(After(s, e).pool)
    ensures Closed(s) ==> Closed(After(s, e))
  {
    match e
    case Call(ask, at) => CallStrandsNobody(s, ask, at);
    case Return(h, how, at) => ReturnStrandsNobody(s, h, how, at);
    case Destroy(h, at) => ReturnStrandsNobody(s, h, s.handles[h].strategy, at);
    case Assign(h, from, at) => ReturnStrandsNobody(s, h, s.handles[h].strategy, at);
    case DrainOne => ShrinkingStrandsNobody(s, AfterDrainOne(s));
    case TimerHandler(k, at) => ShrinkingStrandsNobody(s, AfterTimerHandler(s, k, at));
    case _ =>
      QuietEvent(s, e);
      QuietFreesNothing(s, e);
  }

  lemma EnqueueStrands(s: System, e: Event)
    requires e.Enqueue? && Enabled(s, e)
    ensures Conserving(s.pool) ==> (Conserving(After(s, e).pool) <==> !Strands(s, e))
    ensures Closed(s) ==> (Closed(After(s, e)) <==> !Traps(s, e))
  {
  }

  ghost predicate AlwaysConserving(s: System, es: seq<Event>)
    requires CanRun(s, es)
    decreases |es|
  {
    Conserving(s.pool) && (es == [] || AlwaysConserving(After(s, es[0]), es[1..]))
  }

  ghost predicate AlwaysClosed(s: System, es: seq<Event>)
    requires CanRun(s, es)
    decreases |es|
  {
    Closed(s) && (es == [] || AlwaysClosed(After(s, es[0]), es[1..]))
  }

  ghost predicate NeverStrands(s: System, es: seq<Event>)
    requires CanRun(s, es)
    decreases |es|
  {
    es == [] || (!Strands(s, es[0]) && NeverStrands(After(s, es[0]), es[1..]))
  }

  ghost predicate NeverTraps(s: System, es: seq<Event>)
    requires CanRun(s, es)
    decreases |es|
  {
    es == [] || (!Traps(s, es[0]) && NeverTraps(After(s, es[0]), es[1..]))
  }

  /** Over a whole run: at every moment all cells are in use while anybody waits, exactly if no request
      is ever queued at a moment when a cell is free. A cell being given back counts as free from the
      moment its return has looked for a waiter and found none, since all that is left to do is to put
      it among the free ones. */
  lemma {:induction false} NobodyStrandedIff(s: System, es: seq<Event>)
    requires Owned(s) && Conserving(s.pool) && CanRun(s, es)
    ensures AlwaysConserving(s, es) <==> NeverStrands(s, es)
    decreases |es|
  {
    if es != [] {
      var t := After(s, es[0]);
      if es[0].Enqueue? {
        EnqueueStrands(s, es[0]);
      } else {
        OnlyEnqueueStrands(s, es[0]);
      }
      EventKeepsOwned(s, es[0]);
      if Conserving(t.pool) {
        NobodyStrandedIff(t, es[1..]);
      }
    }
  }

  /** Over a whole run: nobody is ever left waiting in a disabled pool, exactly if no request is ever
      queued in one after it was drained. */
  lemma {:induction false} NobodyTrappedIff(s: System, es: seq<Event>)
    requires Owned(s) && Closed(s) && CanRun(s, es)
    ensures AlwaysClosed(s, es) <==> NeverTraps(s, es)
    decreases |es|
  {
    if es != [] {
      var t := After(s, es[0]);
      if es[0].Enqueue? {
        EnqueueStrands(s, es[0]);
      } else {
        OnlyEnqueueStrands(s, es[0]);
      }
      EventKeepsOwned(s, es[0]);
      if Closed(t) {
        NobodyTrappedIff(t, es[1..]);
      }
    }
  }

  // ---------- schedules that leave nobody waiting in vain ----------

  /** Between the two parts of some get the pool is disabled, or a cell comes back and meets an
      empty queue. */
  predicate Intrudes(s: System, e: Event) {
    s.leaving != [] && (e.DisableAll? || (GivesBack(s, e) && s.pool.queue.waiters == []))
  }

  ghost predicate NeverIntrudes(s: System, es: seq<Event>)
    requires CanRun(s, es)
    decreases |es|
  {
    es == [] || (!Intrudes(s, es[0]) && NeverIntrudes(After(s, es[0]), es[1..]))
  }

  /** While any get is between its two parts nothing can be leased and the pool is open. */
  ghost predicate Sheltered(s: System) {
    s.leaving != [] ==> !CellFree(s.pool) && !s.pool.disabled
  }

  lemma ReturnKeepsSheltered(s: System, h: nat, how: Strategy, at: Ticks)
    requires Sheltered(s) && InPool(s, h)
    requires s.leaving != [] && s.handles[h].cell.Some? ==> s.pool.queue.waiters != []
    ensures Sheltered(AfterReturn(s, h, how, at))
  {
  }

  lemma CallKeepsSheltered(s: System, ask: Ask, at: Ticks)
    requires Sheltered(s) && Owned(s)
    ensures Sheltered(AfterCall(s, ask, at))
  {
    LeaseFailsIffAllUsed(s.pool.storage, at);
  }

  lemma EventKeepsSheltered(s: System, e: Event)
    requires Sheltered(s) && Owned(s) && Enabled(s, e) && !Intrudes(s, e)
    ensures Sheltered(After(s, e))
  {
    match e
    case Call(ask, at) => CallKeepsSheltered(s, ask, at);
    case Return(h, how, at) => ReturnKeepsSheltered(s, h, how, at);
    case Destroy(h, at) => ReturnKeepsSheltered(s, h, s.handles[h].strategy, at);
    case Assign(h, from, at) => ReturnKeepsSheltered(s, h, s.handles[h].strategy, at);
    case Enqueue(k, at) => assert AfterEnqueue(s, k, at).pool.storage == s.pool.storage;
    case DrainOne => assert AfterDrainOne(s).pool.storage == s.pool.storage;
    case TimerHandler(k, at) => assert AfterTimerHandler(s, k, at).pool.storage == s.pool.storage;
    case _ =>
      QuietEvent(s, e);
      QuietFreesNothing(s, e);
  }

  lemma {:induction false} ShelteredRuns(s: System, es: seq<Event>)
    requires Sheltered(s) && Owned(s) && CanRun(s, es) && NeverIntrudes(s, es)
    ensures NeverStrands(s, es) && NeverTraps(s, es)
    decreases |es|
  {
    if es != [] {
      EventKeepsSheltered(s, es[0]);
      EventKeepsOwned(s, es[0]);
      ShelteredRuns(After(s, es[0]), es[1..]);
    }
  }

  /** If no cell comes back to an empty queue, and the pool is not disabled, between the two parts of
      any get, then in every state of the run all cells are in use while anybody waits, and nobody
      waits in a disabled pool once it is drained. */
  lemma UndisturbedGetsWaitForACell(stock: Stock, queueCapacity: nat, idle: Ticks, life: Ticks, now: Ticks, es: seq<Event>)
    requires CanRun(Start(stock, queueCapacity, idle, life, now), es)
    requires NeverIntrudes(Start(stock, queueCapacity, idle, life, now), es)
    ensures AlwaysConserving(Start(stock, queueCapacity, idle, life, now), es)
    ensures AlwaysClosed(Start(stock, queueCapacity, idle, life, now), es)
  {
    var s := Start(stock, queueCapacity, idle, life, now);
    StartIsOwned(stock, queueCapacity, idle, life, now);
    ShelteredRuns(s, es);
    NobodyStrandedIff(s, es);
    NobodyTrappedIff(s, es);
  }

  // ---------- the order of the whole line ----------

  /** The granted, then those in the queue in its order, then those on their way to it: the whole line
      is in the order of the calls of get. */
  ghost predicate InCallOrder(log: seq<Completion>, ws: seq<Waiter>, leaving: seq<RequestId>, asked: nat) {
    && InLine(ws, asked)
    && InTurn(log, ws, asked)
    && (forall c, r :: c in log && c.outcome.Granted? && r in leaving ==> c.request < r)
    && (forall w, r :: w in ws && r in leaving ==> w.request < r)
  }

  ghost predicate Lined(s: System) {
    InCallOrder(s.log, s.pool.queue.waiters, s.leaving, |s.asked|)
  }

  ghost predicate LeavingOnce(s: System) {
    Distinct(s.leaving) && forall r :: r in s.leaving ==> r < |s.asked|
  }

  /** A request gets a cell at once while an older one is in the queue or on its way to it, or is
      queued while an older one is on its way. */
  predicate Jumps(s: System, e: Event) {
    match e
    case Call(_, _) => !s.pool.disabled && CellFree(s.pool) && (s.pool.queue.waiters != [] || s.leaving != [])
    case Enqueue(k, _) =>
      && HasRoom(s.pool.queue) && k < |s.leaving|
      && exists i :: 0 <= i < |s.leaving| && s.leaving[i] < s.leaving[k]
    case _ => false
  }

  lemma FailuresKeepOrder(log: seq<Completion>, ws: seq<Waiter>, lv: seq<RequestId>, n: nat,
                          more: seq<Completion>, ws': seq<Waiter>, lv': seq<RequestId>, n': nat)
    requires InCallOrder(log, ws, lv, n) && n <= n'
    requires InLine(ws', n') && forall w :: w in ws' ==> w in ws
    requires forall r :: r in lv' ==> r in lv || r >= n
    requires forall i :: 0 <= i < |more| ==> more[i].outcome.Failed? && more[i].request < n'
    ensures InCallOrder(log + more, ws', lv', n')
  {
    FailuresKeepTurn(log, ws, n, more, ws', n');
    forall c | c in log + more && c.outcome.Granted? ensures c in log {
      assert c in more ==> c.outcome.Failed?;
    }
  }

  /** The newest request is granted when there is no line. */
  lemma GrantStartsLine(log: seq<Completion>, n: nat, c: Completion)
    requires InCallOrder(log, [], [], n) && c.request == n
    ensures InCallOrder(log + [c], [], [], n + 1)
  {
    GrantKeepsTurn(log, [], n, c, [], n + 1);
  }

  lemma GrantBreaksLine(log: seq<Completion>, ws: seq<Waiter>, lv: seq<RequestId>, n: nat, c: Completion)
    requires InLine(ws, n) && (forall r :: r in lv ==> r < n) && (ws != [] || lv != [])
    requires c.request == n && c.outcome.Granted?
    ensures !InCallOrder(log + [c], ws, lv, n + 1)
  {
    assert (log + [c])[|log|] == c && c in log + [c];
    if ws != [] {
      assert ws[0] in ws;
    } else {
      assert lv[0] in lv;
    }
  }

  /** The first waiter is granted. */
  lemma ServingKeepsOrder(log: seq<Completion>, ws: seq<Waiter>, lv: seq<RequestId>, n: nat, c: Completion)
    requires InCallOrder(log, ws, lv, n) && ws != [] && c.request == ws[0].request
    ensures InCallOrder(log + [c], ws[1..], lv, n)
  {
    assert ws[0] in ws;
    ServingKeepsTurn(log, ws, n, c);
  }

  lemma PushKeepsOrder(log: seq<Completion>, ws: seq<Waiter>, lv: seq<RequestId>, n: nat, k: nat, w: Waiter)
    requires InCallOrder(log, ws, lv, n) && Distinct(lv) && k < |lv| && w.request == lv[k] < n
    requires forall i :: 0 <= i < |lv| ==> lv[i] >= lv[k]
    ensures InCallOrder(log, ws + [w], Cut(lv, k), n)
  {
    CutMembers(lv, k);
    assert lv[k] in lv;
    forall r | r in Cut(lv, k) ensures r in lv && lv[k] < r {
      var i :| 0 <= i < |lv| && lv[i] == r;
    }
  }

  lemma PushBreaksOrder(log: seq<Completion>, ws: seq<Waiter>, lv: seq<RequestId>, n: nat, k: nat, w: Waiter, i: nat)
    requires Distinct(lv) && k < |lv| && w.request == lv[k] && i < |lv| && lv[i] < lv[k]
    ensures !InCallOrder(log, ws + [w], Cut(lv, k), n)
  {
    CutMembers(lv, k);
    assert lv[i] in Cut(lv, k);
    assert (ws + [w])[|ws|] == w && w in ws + [w];
  }

  /** What a call of get, answered by c or not, makes of the line. */
  ghost predicate CallMakes(s: System, c: Option<Completion>, t: System) {
    && |t.asked| == |s.asked| + 1 && t.log == s.log + Given(c) && t.pool.queue == s.pool.queue
    && t.leaving == (if c.Some? then s.leaving else s.leaving + [|s.asked|])
    && (c.Some? ==> c.value.request == |s.asked|)
    && (c.Some? && c.value.outcome.Granted? <==> !s.pool.disabled && CellFree(s.pool))
  }

  lemma CallIsAnswered(s: System, ask: Ask, at: Ticks) returns (c: Option<Completion>)
    requires WellFormed(s.pool.storage)
    ensures CallMakes(s, c, AfterCall(s, ask, at))
  {
    c := GetBegin(s.pool, |s.asked|, ask.ctx, ask.wait, at).1;
    LeaseFailsIffAllUsed(s.pool.storage, at);
  }

  lemma AnswerLinesUp(s: System, c: Option<Completion>, t: System)
    requires Lined(s) && LeavingOnce(s) && CallMakes(s, c, t)
    ensures Lined(t) <==> !(c.Some? && c.value.outcome.Granted? && (s.pool.queue.waiters != [] || s.leaving != []))
  {
    var n, ws := |s.asked|, s.pool.queue.waiters;
    if c.Some? && c.value.outcome.Granted? {
      if ws == [] && s.leaving == [] {
        GrantStartsLine(s.log, n, c.value);
      } else {
        GrantBreaksLine(s.log, ws, s.leaving, n, c.value);
      }
    } else {
      FailuresKeepOrder(s.log, ws, s.leaving, n, Given(c), ws, t.leaving, n + 1);
    }
  }

  lemma EnqueueLinesUp(s: System, k: nat, at: Ticks)
    requires Lined(s) && LeavingOnce(s) && k < |s.leaving| && s.leaving[k] < |s.asked|
    ensures Lined(AfterEnqueue(s, k, at)) <==> !Jumps(s, Enqueue(k, at))
  {
    var r, n, ws, t := s.leaving[k], |s.asked|, s.pool.queue.waiters, AfterEnqueue(s, k, at);
    assert t.leaving == Cut(s.leaving, k) && t.asked == s.asked;
    if HasRoom(s.pool.queue) {
      var w := Waiter(r, s.asked[r].ctx, Add(at, s.asked[r].wait), s.pool.queue.nextTicket);
      assert t.pool.queue.waiters == ws + [w] && t.log == s.log;
      if Jumps(s, Enqueue(k, at)) {
        var i :| 0 <= i < |s.leaving| && s.leaving[i] < s.leaving[k];
        PushBreaksOrder(s.log, ws, s.leaving, n, k, w, i);
      } else {
        PushKeepsOrder(s.log, ws, s.leaving, n, k, w);
      }
    } else {
      var c := Completion(r, s.asked[r].ctx, Failed(RequestQueueOverflow), Post);
      assert t.pool.queue.waiters == ws && t.log == s.log + [c];
      CutMembers(s.leaving, k);
      FailuresKeepOrder(s.log, ws, s.leaving, n, [c], ws, t.leaving, n);
    }
  }

  lemma ReturnLinesUp(s: System, h: nat, how: Strategy, at: Ticks)
    requires Lined(s) && InPool(s, h)
    ensures Lined(AfterReturn(s, h, how, at))
  {
    var ws := s.pool.queue.waiters;
    if s.handles[h].cell.Some? {
      ReturnServesFirst(s, h, how, at);
      if ws != [] {
        var c := Completion(ws[0].request, ws[0].ctx, Granted(s.handles[h].cell.value), Post);
        ServingKeepsOrder(s.log, ws, s.leaving, |s.asked|, c);
      }
    }
  }

  lemma RestInLine(ws: seq<Waiter>, n: nat)
    requires ws != [] && InLine(ws, n)
    ensures InLine(ws[1..], n) && (forall w :: w in ws[1..] ==> w in ws) && ws[0] in ws
  {
  }

  lemma DrainLinesUp(s: System)
    requires Lined(s)
    ensures Lined(AfterDrainOne(s))
  {
    var ws, t := s.pool.queue.waiters, AfterDrainOne(s);
    if ws != [] {
      assert t.log == s.log + [Refused(ws[0])] && t.pool.queue.waiters == ws[1..];
      RestInLine(ws, |s.asked|);
      FailuresKeepOrder(s.log, ws, s.leaving, |s.asked|, [Refused(ws[0])], ws[1..], s.leaving, |s.asked|);
    }
  }

  lemma TimerHandlerLinesUp(s: System, k: nat, at: Ticks)
    requires Lined(s) && k < |s.ready|
    ensures Lined(AfterTimerHandler(s, k, at))
  {
    var ws, d, t := s.pool.queue.waiters, s.ready[k], AfterTimerHandler(s, k, at);
    var cs := FailAll(ByDeadline(UpTo(ws, d)), GetResourceTimeout, Post);
    assert t.log == s.log + cs && t.pool.queue.waiters == Beyond(ws, d);
    BeyondKeepsLine(ws, d, |s.asked|);
    DueAreKnown(ws, d, |s.asked|);
    assert forall i :: 0 <= i < |cs| ==> cs[i].request == ByDeadline(UpTo(ws, d))[i].request;
    FailuresKeepOrder(s.log, ws, s.leaving, |s.asked|, cs, Beyond(ws, d), s.leaving, |s.asked|);
  }

  lemma OtherEventLinesUp(s: System, e: Event)
    requires Lined(s) && Enabled(s, e) && !e.Call? && !e.Enqueue?
    ensures Lined(After(s, e))
  {
    match e
    case Return(h, how, at) => ReturnLinesUp(s, h, how, at);
    case Destroy(h, at) => ReturnLinesUp(s, h, s.handles[h].strategy, at);
    case Assign(h, from, at) => ReturnLinesUp(s, h, s.handles[h].strategy, at);
    case DrainOne => DrainLinesUp(s);
    case TimerHandler(k, at) => TimerHandlerLinesUp(s, k, at);
    case _ => QuietEvent(s, e);
  }

  lemma LinedIffNoJump(s: System, e: Event)
    requires Lined(s) && LeavingOnce(s) && Owned(s) && Enabled(s, e)
    ensures Lined(After(s, e)) <==> !Jumps(s, e)
  {
    match e
    case Call(ask, at) =>
      var c := CallIsAnswered(s, ask, at);
      AnswerLinesUp(s, c, AfterCall(s, ask, at));
    case Enqueue(k, at) => EnqueueLinesUp(s, k, at);
    case _ => OtherEventLinesUp(s, e);
  }

  lemma ReturnIsNoGet(s: System, h: nat, how: Strategy, at: Ticks)
    requires InPool(s, h)
    ensures AfterReturn(s, h, how, at).leaving == s.leaving && AfterReturn(s, h, how, at).asked == s.asked
  {
  }

  lemma JoinKeepsLeavingOnce(s: System, c: Option<Completion>, t: System)
    requires LeavingOnce(s) && CallMakes(s, c, t)
    ensures LeavingOnce(t)
  {
    assert forall i :: 0 <= i < |s.leaving| ==> s.leaving[i] in s.leaving;
  }

  lemma EventKeepsLeavingOnce(s: System, e: Event)
    requires LeavingOnce(s) && Owned(s) && Enabled(s, e)
    ensures LeavingOnce(After(s, e))
  {
    match e
    case Call(ask, at) =>
      var c := CallIsAnswered(s, ask, at);
      JoinKeepsLeavingOnce(s, c, AfterCall(s, ask, at));
    case Enqueue(k, at) =>
      CutMembers(s.leaving, k);
      assert AfterEnqueue(s, k, at).leaving == Cut(s.leaving, k) && AfterEnqueue(s, k, at).asked == s.asked;
    case Return(h, how, at) => ReturnIsNoGet(s, h, how, at);
    case Destroy(h, at) => ReturnIsNoGet(s, h, s.handles[h].strategy, at);
    case Assign(h, from, at) => ReturnIsNoGet(s, h, s.handles[h].strategy, at);
    case DrainOne =>
    case TimerHandler(k, at) =>
    case _ => QuietEvent(s, e);
  }

  ghost predicate AlwaysLined(s: System, es: seq<Event>)
    requires CanRun(s, es)
    decreases |es|
  {
    Lined(s) && (es == [] || AlwaysLined(After(s, es[0]), es[1..]))
  }

  ghost predicate NeverJumps(s: System, es: seq<Event>)
    requires CanRun(s, es)
    decreases |es|
  {
    es == [] || (!Jumps(s, es[0]) && NeverJumps(After(s, es[0]), es[1..]))
  }

  /** Over a whole run: the whole line is in the order of the calls at every moment, exactly if no request
      ever jumps it. This is more than the order of the grants: a request may jump the line and never
      be granted a cell. */
  lemma {:induction false} NobodyOvertakesIff(s: System, es: seq<Event>)
    requires Lined(s) && LeavingOnce(s) && Owned(s) && CanRun(s, es)
    ensures AlwaysLined(s, es) <==> NeverJumps(s, es)
    decreases |es|
  {
    if es != [] {
      LinedIffNoJump(s, es[0]);
      if !Jumps(s, es[0]) {
        EventKeepsOwned(s, es[0]);
        EventKeepsLeavingOnce(s, es[0]);
        NobodyOvertakesIff(After(s, es[0]), es[1..]);
      }
    }
  }

  // ---------- who is granted a cell ----------

  /** The waiter that an event hands a cell to. */
  function ServedBy(s: System, e: Event): Option<Waiter> {
    if GivesBack(s, e) && s.pool.queue.waiters != [] then Some(s.pool.queue.waiters[0]) else None
  }

  lemma ReturnServes(s: System, h: nat, how: Strategy, at: Ticks) returns (c: Option<Completion>)
    requires InPool(s, h)
    ensures AfterReturn(s, h, how, at).log == s.log + Given(c)
    ensures c.Some? <==> s.handles[h].cell.Some? && s.pool.queue.waiters != []
    ensures c.Some? ==> c.value.outcome.Granted? && c.value.request == s.pool.queue.waiters[0].request
  {
    var ws := s.pool.queue.waiters;
    if s.handles[h].cell.Some? && ws != [] {
      ReturnServesFirst(s, h, how, at);
      c := Some(Completion(ws[0].request, ws[0].ctx, Granted(s.handles[h].cell.value), Post));
    } else {
      c := None;
      assert s.log + [] == s.log;
    }
  }

  /** What an event that may give a cell back adds to the log. */
  lemma ServedIsGranted(s: System, e: Event) returns (c: Option<Completion>)
    requires Enabled(s, e) && (e.Return? || e.Destroy? || e.Assign?)
    ensures After(s, e).log == s.log + Given(c)
    ensures c.Some? <==> ServedBy(s, e).Some?
    ensures c.Some? ==> c.value.outcome.Granted? && c.value.request == ServedBy(s, e).value.request
  {
    match e
    case Return(h, how, at) => c := ReturnServes(s, h, how, at);
    case Destroy(h, at) => c := ReturnServes(s, h, s.handles[h].strategy, at);
    case Assign(h, from, at) => c := ReturnServes(s, h, s.handles[h].strategy, at);
  }

  /** Every grant is a lease, to the request being made, or a hand-off, to the waiter that was pushed
      first of those still waiting. */
  lemma GrantsAreLeasesOrHandOffs(s: System, e: Event, i: nat)
    requires Enabled(s, e) && |s.log| <= i < |After(s, e).log| && After(s, e).log[i].outcome.Granted?
    ensures var r := After(s, e).log[i].request;
            if e.Call? then r == |s.asked| else ServedBy(s, e).Some? && r == ServedBy(s, e).value.request
  {
    if e.Return? || e.Destroy? || e.Assign? {
      var c := ServedIsGranted(s, e);
    } else if !e.Call? {
      OthersGrantNothing(s, e);
    }
  }

  // ---------- the order of the grants ----------

  /** A request made after r has been granted a cell. */
  ghost predicate YoungerGranted(log: seq<Completion>, r: RequestId) {
    exists c :: c in log && c.outcome.Granted? && c.request > r
  }

  /** A cell is given back to the first waiter after a younger request has been granted one. */
  ghost predicate ServesLate(s: System, e: Event) {
    ServedBy(s, e).Some? && YoungerGranted(s.log, ServedBy(s, e).value.request)
  }

  lemma FailuresKeepGrants(log: seq<Completion>, log': seq<Completion>)
    requires log <= log' && forall i :: |log| <= i < |log'| ==> log'[i].outcome.Failed?
    ensures GrantsInOrder(log') <==> GrantsInOrder(log)
  {
    if GrantsInOrder(log') {
      forall i, j | 0 <= i < j < |log| && log[i].outcome.Granted? && log[j].outcome.Granted?
        ensures log[i].request < log[j].request
      {
        assert log'[i] == log[i] && log'[j] == log[j];
      }
    }
  }

  lemma GrantInOrderIff(log: seq<Completion>, c: Completion)
    requires GrantsInOrder(log) && c.outcome.Granted? && forall d :: d in log ==> d.request != c.request
    ensures GrantsInOrder(log + [c]) <==> !YoungerGranted(log, c.request)
  {
    var more := log + [c];
    if GrantsInOrder(more) {
      forall d | d in log && d.outcome.Granted? ensures d.request < c.request {
        var i :| 0 <= i < |log| && log[i] == d;
        assert more[i] == d && more[|log|] == c;
      }
    } else {
      var i, j :| 0 <= i < j < |more| && more[i].outcome.Granted? && more[j].outcome.Granted?
                  && more[i].request >= more[j].request;
      assert more[i] == log[i] && log[i] in log;
      assert j == |log|;
    }
  }

  lemma CallKeepsGrants(s: System, ask: Ask, at: Ticks)
    requires GrantsInOrder(s.log) && Accounted(s) && Owned(s)
    ensures GrantsInOrder(AfterCall(s, ask, at).log)
  {
    PlacesApart(s);
    var c := CallIsAnswered(s, ask, at);
    if c.Some? && c.value.outcome.Granted? {
      GrantInOrderIff(s.log, c.value);
    } else {
      FailuresKeepGrants(s.log, s.log + Given(c));
    }
  }

  lemma ServiceOrdersGrants(s: System, e: Event, c: Option<Completion>)
    requires GrantsInOrder(s.log) && Accounted(s)
    requires c.Some? <==> ServedBy(s, e).Some?
    requires c.Some? ==> c.value.outcome.Granted? && c.value.request == ServedBy(s, e).value.request
    ensures GrantsInOrder(s.log + Given(c)) <==> !ServesLate(s, e)
  {
    if c.Some? {
      PlacesApart(s);
      assert s.pool.queue.waiters[0] in s.pool.queue.waiters;
      GrantInOrderIff(s.log, c.value);
    } else {
      assert s.log + Given(c) == s.log;
    }
  }

  lemma OthersKeepGrants(s: System, e: Event)
    requires GrantsInOrder(s.log) && Enabled(s, e) && !e.Call? && !e.Return? && !e.Destroy? && !e.Assign?
    ensures GrantsInOrder(After(s, e).log)
  {
    OthersGrantNothing(s, e);
    EventKeepsAnswers(s, e);
    FailuresKeepGrants(s.log, After(s, e).log);
  }

  /** One event keeps the grants in order exactly if it is not such a late service. */
  lemma GrantsKeptIffNotLate(s: System, e: Event)
    requires GrantsInOrder(s.log) && Accounted(s) && Owned(s) && Enabled(s, e)
    ensures GrantsInOrder(After(s, e).log) <==> !ServesLate(s, e)
  {
    if e.Call? {
      CallKeepsGrants(s, e.ask, e.at);
    } else if e.Return? || e.Destroy? || e.Assign? {
      var c := ServedIsGranted(s, e);
      ServiceOrdersGrants(s, e, c);
    } else {
      OthersKeepGrants(s, e);
    }
  }

  ghost predicate AlwaysInOrder(s: System, es: seq<Event>)
    requires CanRun(s, es)
    decreases |es|
  {
    GrantsInOrder(s.log) && (es == [] || AlwaysInOrder(After(s, es[0]), es[1..]))
  }

  ghost predicate NeverServesLate(s: System, es: seq<Event>)
    requires CanRun(s, es)
    decreases |es|
  {
    es == [] || (!ServesLate(s, es[0]) && NeverServesLate(After(s, es[0]), es[1..]))
  }

  /** Over a whole run: cells are granted in the order of the calls of get, exactly if no cell is ever given
      back while the first waiter is older than some request that has been granted one. */
  lemma {:induction false} GrantsInOrderIff(s: System, es: seq<Event>)
    requires GrantsInOrder(s.log) && Accounted(s) && Owned(s) && CanRun(s, es)
    ensures AlwaysInOrder(s, es) <==> NeverServesLate(s, es)
    decreases |es|
  {
    if es != [] {
      GrantsKeptIffNotLate(s, es[0]);
      if !ServesLate(s, es[0]) {
        EventKeepsAccounted(s, es[0]);
        EventKeepsOwned(s, es[0]);
        GrantsInOrderIff(After(s, es[0]), es[1..]);
      }
    }
  }

  // ---------- the order of the hand-offs ----------

  /** The waiters that are handed a cell in a run, in that order. */
  function HandOffs(s: System, es: seq<Event>): seq<Waiter>
    requires CanRun(s, es)
    decreases |es|
  {
    if es == [] then []
    else
      var w, rest := ServedBy(s, es[0]), HandOffs(After(s, es[0]), es[1..]);
      if w.Some? then [w.value] + rest else rest
  }

  /** All waiters were pushed after number b, and the next one will be. */
  ghost predicate PushedAfter(q: QueueState, b: nat) {
    q.nextTicket > b && forall w :: w in q.waiters ==> w.ticket > b
  }

  lemma ReturnKeepsPushedAfter(s: System, h: nat, how: Strategy, at: Ticks, b: nat)
    requires PushedAfter(s.pool.queue, b) && InPool(s, h)
    ensures PushedAfter(AfterReturn(s, h, how, at).pool.queue, b)
  {
  }

  lemma EnqueueKeepsPushedAfter(s: System, k: nat, at: Ticks, b: nat)
    requires PushedAfter(s.pool.queue, b) && k < |s.leaving| && s.leaving[k] < |s.asked|
    ensures PushedAfter(AfterEnqueue(s, k, at).pool.queue, b)
  {
  }

  lemma EventKeepsPushedAfter(s: System, e: Event, b: nat)
    requires PushedAfter(s.pool.queue, b) && Enabled(s, e)
    ensures PushedAfter(After(s, e).pool.queue, b)
  {
    match e
    case Call(ask, at) =>
    case Enqueue(k, at) => EnqueueKeepsPushedAfter(s, k, at, b);
    case Return(h, how, at) => ReturnKeepsPushedAfter(s, h, how, at, b);
    case Destroy(h, at) => ReturnKeepsPushedAfter(s, h, s.handles[h].strategy, at, b);
    case Assign(h, from, at) => ReturnKeepsPushedAfter(s, h, s.handles[h].strategy, at, b);
    case DrainOne =>
    case TimerHandler(k, at) =>
    case _ => QuietEvent(s, e);
  }

  lemma {:induction false} HandOffsComeLater(s: System, es: seq<Event>, b: nat)
    requires PushedAfter(s.pool.queue, b) && CanRun(s, es)
    ensures forall w :: w in HandOffs(s, es) ==> w.ticket > b
    ensures PushedAfter(RunAll(s, es).pool.queue, b)
    decreases |es|
  {
    if es != [] {
      EventKeepsPushedAfter(s, es[0], b);
      HandOffsComeLater(After(s, es[0]), es[1..], b);
    }
  }

  lemma ServedIsFirst(s: System, e: Event)
    requires TimersInv(s) && Enabled(s, e) && ServedBy(s, e).Some?
    ensures PushedAfter(After(s, e).pool.queue, ServedBy(s, e).value.ticket)
  {
    match e
    case Return(h, how, at) => ReturnServesEarliest(s, h, how, at);
    case Destroy(h, at) => ReturnServesEarliest(s, h, s.handles[h].strategy, at);
    case Assign(h, from, at) => ReturnServesEarliest(s, h, s.handles[h].strategy, at);
  }

  lemma ReturnServesEarliest(s: System, h: nat, how: Strategy, at: Ticks)
    requires TimersInv(s) && InPool(s, h) && s.handles[h].cell.Some? && s.pool.queue.waiters != []
    ensures PushedAfter(AfterReturn(s, h, how, at).pool.queue, s.pool.queue.waiters[0].ticket)
  {
    var ws, t := s.pool.queue.waiters, AfterReturn(s, h, how, at);
    RestArrivesLater(ws);
    assert ws[0] in ws;
    assert t.pool.queue.waiters == ws[1..] && t.pool.queue.nextTicket == s.pool.queue.nextTicket;
  }

  lemma HandOffFirst(w: Waiter, later: seq<Waiter>, ws: seq<Waiter>)
    requires Arrival(later + ws)
    requires (forall v :: v in later ==> v.ticket > w.ticket) && forall v :: v in ws ==> v.ticket > w.ticket
    ensures Arrival([w] + later + ws)
  {
    ArrivalFirst(w, later + ws);
    assert [w] + later + ws == [w] + (later + ws);
  }

  /** In every run, however the gets are divided, cells are handed to waiters in the order in which
      these were pushed, and before everyone still in the queue. */
  lemma {:induction false} HandOffsInPushOrder(s: System, es: seq<Event>)
    requires TimersInv(s) && CanRun(s, es)
    ensures Arrival(HandOffs(s, es) + RunAll(s, es).pool.queue.waiters)
    decreases |es|
  {
    if es != [] {
      var t := After(s, es[0]);
      EventKeepsTimers(s, es[0]);
      HandOffsInPushOrder(t, es[1..]);
      var w := ServedBy(s, es[0]);
      if w.Some? {
        ServedIsFirst(s, es[0]);
        HandOffsComeLater(t, es[1..], w.value.ticket);
        HandOffFirst(w.value, HandOffs(t, es[1..]), RunAll(t, es[1..]).pool.queue.waiters);
      }
    }
  }
}
