/** What holds when nothing comes between the two parts of get, as on a single-threaded executor:
    nobody waits while a cell is free, a disabled pool has no waiters, and cells are granted in the
    order in which they were asked for. */
module Fairness {
  import opened TimeTraits
  import opened Sequences
  import opened StorageSpec
  import opened QueueSpec
  import opened PoolSpec
  import opened HandleSpec
  import opened Protocol
  import opened Ownership

  // ---------- steps with an undivided get ----------

  datatype Step = Get(ask: Ask, t: Ticks, t': Ticks) | Other(e: Event)

  /** A step is one event, or the two parts of a get in a row. */
  function Events(s: System, step: Step): seq<Event> {
    match step
    case Get(ask, t, t') =>
      if GetBegin(s.pool, |s.asked|, ask.ctx, ask.wait, t).1.Some? then [Call(ask, t)]
      else [Call(ask, t), Enqueue(|s.leaving|, t')]
    case Other(e) => [e]
  }

  predicate CanStep(s: System, step: Step) {
    (step.Other? ==> !step.e.Call? && !step.e.Enqueue?) && CanRun(s, Events(s, step))
  }

  function AfterStep(s: System, step: Step): System
    requires CanStep(s, step)
  {
    RunAll(s, Events(s, step))
  }

  predicate CanTake(s: System, steps: seq<Step>)
    decreases |steps|
  {
    steps == [] || (CanStep(s, steps[0]) && CanTake(AfterStep(s, steps[0]), steps[1..]))
  }

  function TakeAll(s: System, steps: seq<Step>): System
    requires CanTake(s, steps)
    decreases |steps|
  {
    if steps == [] then s else TakeAll(AfterStep(s, steps[0]), steps[1..])
  }

  predicate StepsReach(stock: Stock, queueCapacity: nat, idle: Ticks, life: Ticks, now: Ticks, steps: seq<Step>, s: System) {
    var start := Start(stock, queueCapacity, idle, life, now);
    CanTake(start, steps) && s == TakeAll(start, steps)
  }

  /** The states a pool can get into with an undivided get. */
  ghost predicate ReachableInSteps(s: System) {
    exists stock, queueCapacity, idle, life, now, steps :: StepsReach(stock, queueCapacity, idle, life, now, steps, s)
  }

  lemma RunFirst(s: System, e: Event, es: seq<Event>)
    requires Enabled(s, e) && CanRun(After(s, e), es)
    ensures CanRun(s, [e] + es) && RunAll(s, [e] + es) == RunAll(After(s, e), es)
  {
    assert ([e] + es)[1..] == es;
  }

  lemma RunOne(s: System, e: Event)
    ensures CanRun(s, [e]) <==> Enabled(s, e)
    ensures Enabled(s, e) ==> RunAll(s, [e]) == After(s, e)
  {
  }

  lemma RunTwo(s: System, e: Event, f: Event)
    ensures CanRun(s, [e, f]) <==> Enabled(s, e) && Enabled(After(s, e), f)
    ensures Enabled(s, e) && Enabled(After(s, e), f) ==> RunAll(s, [e, f]) == After(After(s, e), f)
  {
    assert [e, f][1..] == [f];
    if Enabled(s, e) {
      RunOne(After(s, e), f);
    }
  }

  /** A run may be put off by the events of one step. */
  lemma StepFirst(s: System, step: Step, rest: seq<Event>) returns (es: seq<Event>)
    requires CanStep(s, step) && CanRun(AfterStep(s, step), rest)
    ensures CanRun(s, es) && RunAll(s, es) == RunAll(AfterStep(s, step), rest)
  {
    var all := Events(s, step);
    if |all| == 1 {
      RunOne(s, all[0]);
      RunFirst(s, all[0], rest);
      es := [all[0]] + rest;
    } else {
      assert all == [all[0], all[1]];
      RunTwo(s, all[0], all[1]);
      RunFirst(After(s, all[0]), all[1], rest);
      RunFirst(s, all[0], [all[1]] + rest);
      es := [all[0]] + ([all[1]] + rest);
    }
  }

  /** Runs with an undivided get are runs of the divided one, so all that holds of these holds. */
  lemma {:induction false} StepsAreARun(s: System, steps: seq<Step>) returns (es: seq<Event>)
    requires CanTake(s, steps)
    ensures CanRun(s, es) && RunAll(s, es) == TakeAll(s, steps)
    decreases |steps|
  {
    if steps == [] {
      es := [];
    } else {
      var rest := StepsAreARun(AfterStep(s, steps[0]), steps[1..]);
      es := StepFirst(s, steps[0], rest);
    }
  }

  /** The undivided get is the one of the pool. */
  lemma GetStepIsGet(s: System, ask: Ask, t: Ticks, t': Ticks)
    requires CanStep(s, Step.Get(ask, t, t'))
    ensures var u := AfterStep(s, Step.Get(ask, t, t'));
            var (p, c) := PoolSpec.Get(s.pool, |s.asked|, ask.ctx, ask.wait, t, t');
            && u.pool == p && u.log == s.log + Given(c)
            && u.asked == s.asked + [ask] && u.leaving == s.leaving
  {
    if GetBegin(s.pool, |s.asked|, ask.ctx, ask.wait, t).1.Some? {
      RunOne(s, Call(ask, t));
    } else {
      RunTwo(s, Call(ask, t), Enqueue(|s.leaving|, t'));
      PushFollows(s, AfterCall(s, ask, t), ask, t');
    }
  }

  /** The second part of a get right after the first. */
  lemma PushFollows(s: System, u: System, ask: Ask, t': Ticks)
    requires u.leaving == s.leaving + [|s.asked|] && u.asked == s.asked + [ask] && u.log == s.log + []
    ensures var v, (p, c) := AfterEnqueue(u, |s.leaving|, t'), GetPush(u.pool, |s.asked|, ask.ctx, ask.wait, t');
            && v.pool == p && v.log == s.log + Given(c) && v.asked == u.asked && v.leaving == s.leaving
  {
    assert Cut(s.leaving + [|s.asked|], |s.leaving|) == s.leaving;
  }

  // ---------- an undisturbed disable ----------

  /** The turns of the loop of disable, with nothing in between. */
  lemma {:induction false} DrainRuns(s: System) returns (es: seq<Event>)
    requires s.draining
    ensures CanRun(s, es)
    ensures RunAll(s, es).pool == s.pool.(queue := Drained(s.pool.queue)) && !RunAll(s, es).draining
    ensures RunAll(s, es).log == s.log + FailAll(s.pool.queue.waiters, Disabled, Dispatch)
    decreases |s.pool.queue.waiters|
  {
    var ws, t := s.pool.queue.waiters, AfterDrainOne(s);
    if ws == [] {
      es := [DrainOne];
      RunOne(s, DrainOne);
    } else {
      DrainedByPop(s.pool.queue);
      FailAllFirst(s.log, ws, Disabled, Dispatch);
      var rest := DrainRuns(t);
      RunFirst(s, DrainOne, rest);
      es := [DrainOne] + rest;
    }
  }

  /** A disable that nothing comes in between is the one of the pool. */
  lemma DisableIsDisable(s: System) returns (es: seq<Event>)
    requires Enabled(s, DisableAll)
    ensures CanRun(s, es)
    ensures RunAll(s, es).pool == PoolSpec.Disable(s.pool).0 && !RunAll(s, es).draining
    ensures RunAll(s, es).log == s.log + PoolSpec.Disable(s.pool).1
  {
    var rest := DrainRuns(AfterDisable(s));
    RunFirst(s, DisableAll, rest);
    es := [DisableAll] + rest;
  }

  // ---------- the invariant ----------

  /** Nobody waits while a cell could be leased. */
  ghost predicate Conserving(p: PoolState) {
    p.queue.waiters != [] ==> p.storage.available == [] && p.storage.wasted == []
  }

  /** Nobody waits in a pool that has been disabled and drained. */
  ghost predicate Closed(s: System) {
    s.pool.disabled && !s.draining ==> s.pool.queue.waiters == []
  }

  /** Waiters stand in the order of their calls of get. */
  ghost predicate InLine(ws: seq<Waiter>, asked: nat) {
    && (forall i, j :: 0 <= i < j < |ws| ==> ws[i].request < ws[j].request)
    && (forall w :: w in ws ==> w.request < asked)
  }

  /** Cells have been granted in the order of the calls of get. */
  ghost predicate GrantsInOrder(log: seq<Completion>) {
    forall i, j :: 0 <= i < j < |log| && log[i].outcome.Granted? && log[j].outcome.Granted? ==>
      log[i].request < log[j].request
  }

  /** And before everyone still waiting. */
  ghost predicate InTurn(log: seq<Completion>, ws: seq<Waiter>, asked: nat) {
    && GrantsInOrder(log)
    && (forall c, w :: c in log && c.outcome.Granted? && w in ws ==> c.request < w.request)
    && (forall c :: c in log ==> c.request < asked)
  }

  ghost predicate Fair(s: System) {
    && s.leaving == []
    && WellFormed(s.pool.storage)
    && Conserving(s.pool) && Closed(s)
    && InLine(s.pool.queue.waiters, |s.asked|)
    && InTurn(s.log, s.pool.queue.waiters, |s.asked|)
  }

  lemma FailuresKeepTurn(log: seq<Completion>, ws: seq<Waiter>, asked: nat, more: seq<Completion>, ws': seq<Waiter>, asked': nat)
    requires InTurn(log, ws, asked) && asked <= asked'
    requires forall w :: w in ws' ==> w in ws || w.request >= asked
    requires forall i :: 0 <= i < |more| ==> more[i].outcome.Failed? && more[i].request < asked'
    ensures InTurn(log + more, ws', asked')
  {
    forall c | c in log + more ensures c.request < asked' && (c.outcome.Granted? ==> c in log) {
      if c !in log { assert c in more; }
    }
    assert forall j :: |log| <= j < |log + more| ==> (log + more)[j] == more[j - |log|];
    forall i, j | 0 <= i < j < |log + more| && (log + more)[i].outcome.Granted? && (log + more)[j].outcome.Granted?
      ensures (log + more)[i].request < (log + more)[j].request
    {
      assert (log + more)[i] == log[i] && (log + more)[j] == log[j];
    }
  }

  lemma GrantKeepsTurn(log: seq<Completion>, ws: seq<Waiter>, asked: nat, c: Completion, ws': seq<Waiter>, asked': nat)
    requires InTurn(log, ws, asked) && asked <= asked' && c.request < asked'
    requires c.request >= asked || exists w :: w in ws && w.request == c.request
    requires forall w :: w in ws' ==> w in ws && w.request > c.request
    ensures InTurn(log + [c], ws', asked')
  {
    forall d | d in log && d.outcome.Granted? ensures d.request < c.request {
    }
    forall i | 0 <= i < |log| ensures log[i] in log {
    }
  }

  // ---------- one step at a time ----------

  lemma GetAnswered(s: System, ask: Ask, t: Ticks)
    requires Fair(s) && GetBegin(s.pool, |s.asked|, ask.ctx, ask.wait, t).1.Some?
    ensures Fair(AfterCall(s, ask, t))
  {
    var n, ws := |s.asked|, s.pool.queue.waiters;
    var c := GetBegin(s.pool, n, ask.ctx, ask.wait, t).1.value;
    LeaseFailsIffAllUsed(s.pool.storage, t);
    LeaseIsWellFormed(s.pool.storage, t);
    if c.outcome.Granted? {
      GrantKeepsTurn(s.log, ws, n, c, ws, n + 1);
    } else {
      FailuresKeepTurn(s.log, ws, n, [c], ws, n + 1);
    }
  }

  /** A get that finds nothing to lease changes nothing but that it is on its way to the queue. */
  lemma CallLeaves(s: System, ask: Ask, t: Ticks)
    requires WellFormed(s.pool.storage) && GetBegin(s.pool, |s.asked|, ask.ctx, ask.wait, t).1.None?
    ensures AfterCall(s, ask, t) == s.(now := t, asked := s.asked + [ask], leaving := s.leaving + [|s.asked|])
    ensures s.pool.storage.available == [] && s.pool.storage.wasted == [] && !s.pool.disabled
  {
    LeaseFailsIffAllUsed(s.pool.storage, t);
    assert s.log + [] == s.log && s.pending + [] == s.pending;
  }

  /** The second part of get, when nothing can be leased and the request is the newest one. */
  lemma EnqueueKeepsFair(s: System, ask: Ask, at: Ticks)
    requires Fair(s) && s.pool.storage.available == [] && s.pool.storage.wasted == [] && !s.pool.disabled
    ensures Fair(AfterEnqueue(s.(asked := s.asked + [ask], leaving := [|s.asked|]), 0, at))
  {
    var n, ws := |s.asked|, s.pool.queue.waiters;
    var u := s.(asked := s.asked + [ask], leaving := [n]);
    var c := GetPush(u.pool, n, ask.ctx, ask.wait, at).1;
    var v := AfterEnqueue(u, 0, at);
    if c.Some? {
      FailuresKeepTurn(s.log, ws, n, [c.value], ws, n + 1);
    } else {
      FailuresKeepTurn(s.log, ws, n, [], v.pool.queue.waiters, n + 1);
      assert s.log + [] == s.log;
    }
  }

  lemma GetQueued(s: System, ask: Ask, t: Ticks, t': Ticks)
    requires Fair(s) && GetBegin(s.pool, |s.asked|, ask.ctx, ask.wait, t).1.None?
    ensures AfterCall(s, ask, t).leaving == [|s.asked|]
    ensures Fair(AfterEnqueue(AfterCall(s, ask, t), 0, t'))
  {
    CallLeaves(s, ask, t);
    EnqueueKeepsFair(s.(now := t), ask, t');
  }

  /** Returning a cell serves the first waiter, if any. */
  lemma ReturnServesFirst(s: System, h: nat, how: Strategy, at: Ticks)
    requires InPool(s, h) && s.handles[h].cell.Some?
    ensures var t := AfterReturn(s, h, how, at);
            var ws := s.pool.queue.waiters;
            && t.asked == s.asked && t.leaving == s.leaving
            && (ws == [] ==> t.log == s.log && t.pool.queue.waiters == [])
            && (ws != [] ==>
                  && t.pool.queue.waiters == ws[1..]
                  && t.log == s.log + [Completion(ws[0].request, ws[0].ctx, Granted(s.handles[h].cell.value), Post)])
  {
  }

  lemma ReturnStrandsNobody(s: System, h: nat, how: Strategy, at: Ticks)
    requires InPool(s, h)
    ensures Conserving(s.pool) ==> Conserving(AfterReturn(s, h, how, at).pool)
    ensures Closed(s) ==> Closed(AfterReturn(s, h, how, at))
  {
  }

  lemma ServingKeepsTurn(log: seq<Completion>, ws: seq<Waiter>, asked: nat, c: Completion)
    requires ws != [] && InLine(ws, asked) && InTurn(log, ws, asked) && c.request == ws[0].request
    ensures InLine(ws[1..], asked) && InTurn(log + [c], ws[1..], asked)
  {
    assert ws[0] in ws;
    forall w | w in ws[1..] ensures w in ws && w.request > c.request {
      var i :| 1 <= i < |ws| && ws[i] == w;
    }
    GrantKeepsTurn(log, ws, asked, c, ws[1..], asked);
  }

  lemma ReturnKeepsFair(s: System, h: nat, how: Strategy, at: Ticks)
    requires Fair(s) && Owned(s) && InPool(s, h)
    ensures Fair(AfterReturn(s, h, how, at))
  {
    ReturnKeepsOwned(s, h, how, at);
    ReturnStrandsNobody(s, h, how, at);
    if s.handles[h].cell.Some? {
      var ws := s.pool.queue.waiters;
      ReturnServesFirst(s, h, how, at);
      if ws != [] {
        var c := Completion(ws[0].request, ws[0].ctx, Granted(s.handles[h].cell.value), Post);
        ServingKeepsTurn(s.log, ws, |s.asked|, c);
      }
    }
  }

  lemma {:induction false} BeyondKeepsLine(ws: seq<Waiter>, t: Ticks, asked: nat)
    requires InLine(ws, asked)
    ensures InLine(Beyond(ws, t), asked)
  {
    if ws != [] {
      var rest := Beyond(ws[1..], t);
      BeyondKeepsLine(ws[1..], t, asked);
      forall i | 0 <= i < |rest| ensures ws[0].request < rest[i].request {
        assert rest[i] in rest;
      }
    }
  }

  lemma DueAreKnown(ws: seq<Waiter>, t: Ticks, asked: nat)
    requires InLine(ws, asked)
    ensures var due := ByDeadline(UpTo(ws, t)); forall i :: 0 <= i < |due| ==> due[i].request < asked
  {
    var due := ByDeadline(UpTo(ws, t));
    forall i | 0 <= i < |due| ensures due[i].request < asked {
      DueMembers(UpTo(ws, t), due[i]);
      assert due[i] in due;
    }
  }

  lemma TimerHandlerKeepsFair(s: System, k: nat, at: Ticks)
    requires Fair(s) && k < |s.ready|
    ensures Fair(AfterTimerHandler(s, k, at))
  {
    var ws, d, t := s.pool.queue.waiters, s.ready[k], AfterTimerHandler(s, k, at);
    var cs := FailAll(ByDeadline(UpTo(ws, d)), GetResourceTimeout, Post);
    assert t.log == s.log + cs && t.pool.queue.waiters == Beyond(ws, d) && t.pool.storage == s.pool.storage;
    BeyondKeepsLine(ws, d, |s.asked|);
    DueAreKnown(ws, d, |s.asked|);
    assert forall i :: 0 <= i < |cs| ==> cs[i].request == ByDeadline(UpTo(ws, d))[i].request;
    FailuresKeepTurn(s.log, ws, |s.asked|, cs, Beyond(ws, d), |s.asked|);
  }

  lemma DrainKeepsFair(s: System)
    requires Fair(s)
    ensures Fair(AfterDrainOne(s))
  {
    var ws := s.pool.queue.waiters;
    if ws != [] {
      assert ws[0] in ws;
      FailuresKeepTurn(s.log, ws, |s.asked|, [Refused(ws[0])], ws[1..], |s.asked|);
    }
  }

  lemma QuietKeepsFair(s: System, t: System)
    requires Fair(s) && WellFormed(t.pool.storage)
    requires t.leaving == s.leaving && t.log == s.log && t.asked == s.asked
    requires t.pool.disabled == s.pool.disabled && t.draining == s.draining && t.pool.queue.waiters == s.pool.queue.waiters
    requires s.pool.storage.available == [] && s.pool.storage.wasted == [] ==>
               t.pool.storage.available == [] && t.pool.storage.wasted == []
    ensures Fair(t)
  {
  }

  lemma AssignKeepsFair(s: System, h: nat, from: nat, at: Ticks)
    requires Fair(s) && Owned(s) && InPool(s, h) && from < |s.handles|
    ensures Fair(AfterAssign(s, h, from, at))
  {
    ReturnKeepsFair(s, h, s.handles[h].strategy, at);
    QuietKeepsFair(AfterReturn(s, h, s.handles[h].strategy, at), AfterAssign(s, h, from, at));
  }

  lemma StoreKeepsFair(s: System, h: nat, v: Value, at: Ticks)
    requires Fair(s) && Owned(s) && InPool(s, h)
    ensures Fair(AfterStore(s, h, v, at))
  {
    StoreKeepsOwned(s, h, v, at);
    QuietKeepsFair(s, AfterStore(s, h, v, at));
  }

  lemma InvalidateKeepsFair(s: System)
    requires Fair(s)
    ensures Fair(AfterInvalidate(s))
  {
    InvalidateIsWellFormed(s.pool.storage);
    QuietKeepsFair(s, AfterInvalidate(s));
  }

  lemma EventKeepsFair(s: System, e: Event)
    requires Fair(s) && Owned(s) && Enabled(s, e) && !e.Call? && !e.Enqueue?
    ensures Fair(After(s, e))
  {
    match e
    case Return(h, how, at) => ReturnKeepsFair(s, h, how, at);
    case Destroy(h, at) => ReturnKeepsFair(s, h, s.handles[h].strategy, at);
    case Assign(h, from, at) => AssignKeepsFair(s, h, from, at);
    case Store(h, v, at) => StoreKeepsFair(s, h, v, at);
    case InvalidateAll => InvalidateKeepsFair(s);
    case DisableAll =>
    case DrainOne => DrainKeepsFair(s);
    case TimerHandler(k, at) => TimerHandlerKeepsFair(s, k, at);
    case AbortedHandler(d) => assert s.log + [] == s.log;
    case Run(k) => QuietKeepsFair(s, AfterRun(s, k));
    case MoveOut(h) => QuietKeepsFair(s, AfterMoveOut(s, h));
    case Fire(ctx, at) => QuietKeepsFair(s, AfterFire(s, ctx, at));
  }

  lemma GetKeepsFair(s: System, ask: Ask, t: Ticks, t': Ticks)
    requires Fair(s) && CanStep(s, Get(ask, t, t'))
    ensures Fair(AfterStep(s, Get(ask, t, t')))
  {
    if GetBegin(s.pool, |s.asked|, ask.ctx, ask.wait, t).1.Some? {
      RunOne(s, Call(ask, t));
      GetAnswered(s, ask, t);
    } else {
      RunTwo(s, Call(ask, t), Enqueue(0, t'));
      GetQueued(s, ask, t, t');
    }
  }

  lemma StepKeepsFair(s: System, step: Step)
    requires Fair(s) && Owned(s) && CanStep(s, step)
    ensures Fair(AfterStep(s, step)) && Owned(AfterStep(s, step))
  {
    RunsKeepOwned(s, Events(s, step));
    match step
    case Get(ask, t, t') => GetKeepsFair(s, ask, t, t');
    case Other(e) =>
      RunOne(s, e);
      EventKeepsFair(s, e);
  }

  // ---------- every run ----------

  lemma StartIsFair(stock: Stock, queueCapacity: nat, idle: Ticks, life: Ticks, now: Ticks)
    ensures Fair(Start(stock, queueCapacity, idle, life, now))
  {
    StartIsOwned(stock, queueCapacity, idle, life, now);
  }

  lemma {:induction false} StepsKeepFair(s: System, steps: seq<Step>)
    requires Fair(s) && Owned(s) && CanTake(s, steps)
    ensures Fair(TakeAll(s, steps))
    decreases |steps|
  {
    if steps != [] {
      StepKeepsFair(s, steps[0]);
      StepsKeepFair(AfterStep(s, steps[0]), steps[1..]);
    }
  }

  lemma FairRun(stock: Stock, queueCapacity: nat, idle: Ticks, life: Ticks, now: Ticks, steps: seq<Step>)
    requires CanTake(Start(stock, queueCapacity, idle, life, now), steps)
    ensures Fair(TakeAll(Start(stock, queueCapacity, idle, life, now), steps))
  {
    StartIsOwned(stock, queueCapacity, idle, life, now);
    StartIsFair(stock, queueCapacity, idle, life, now);
    StepsKeepFair(Start(stock, queueCapacity, idle, life, now), steps);
  }

  /** With an undivided get: whenever somebody waits, every cell is in use; a disabled pool has
      no waiters once it is drained; and the cells granted so far, leased or handed on, went out in the order in
      which they were asked for. */
  lemma NobodyWaitsInVainOrOvertakes(s: System)
    requires ReachableInSteps(s)
    ensures s.pool.queue.waiters != [] ==> |s.pool.storage.used| == |s.pool.storage.cells|
    ensures s.pool.disabled && !s.draining ==> s.pool.queue.waiters == []
    ensures GrantsInOrder(s.log)
  {
    var stock, queueCapacity, idle, life, now, steps :| StepsReach(stock, queueCapacity, idle, life, now, steps, s);
    FairRun(stock, queueCapacity, idle, life, now, steps);
    Sizes(s.pool.storage);
  }
}
