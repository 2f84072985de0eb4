/** Every call of get is answered at most once, and until then it is in exactly one place. */
module Completions {
  import opened TimeTraits
  import opened Sequences
  import opened QueueSpec
  import opened PoolSpec
  import opened HandleSpec
  import opened Protocol

  function Answered(cs: seq<Completion>): (r: seq<RequestId>)
    ensures |r| == |cs| && forall i :: 0 <= i < |cs| ==> r[i] == cs[i].request
  {
    Map((c: Completion) => c.request, cs)
  }

  function Waiting(ws: seq<Waiter>): (r: seq<RequestId>)
    ensures |r| == |ws| && forall i :: 0 <= i < |ws| ==> r[i] == ws[i].request
  {
    Map((w: Waiter) => w.request, ws)
  }

  /** The places a request can be: on its way to the queue, in the queue, or answered. Together
      they hold every request made so far once, and nothing else. */
  ghost predicate EachOnce(asked: nat, leaving: seq<RequestId>, ws: seq<Waiter>, log: seq<Completion>) {
    forall r: RequestId ::
      Count(leaving, r) + Count(Waiting(ws), r) + Count(Answered(log), r) == if r < asked then 1 else 0
  }

  ghost predicate Accounted(s: System) {
    && EachOnce(|s.asked|, s.leaving, s.pool.queue.waiters, s.log)
    && (forall c: Completion :: Count(s.log, c) == Count(s.pending, c) + Count(s.ran, c))
  }

  // ---------- moving one request ----------

  lemma AnsweredMore(log: seq<Completion>, c: Completion, r: RequestId)
    ensures Count(Answered(log + [c]), r) == Count(Answered(log), r) + One(c.request, r)
  {
    assert Answered(log + [c]) == Answered(log) + [c.request];
    CountAppend(Answered(log), c.request, r);
  }

  lemma WaitingMore(ws: seq<Waiter>, w: Waiter, r: RequestId)
    ensures Count(Waiting(ws + [w]), r) == Count(Waiting(ws), r) + One(w.request, r)
  {
    assert Waiting(ws + [w]) == Waiting(ws) + [w.request];
    CountAppend(Waiting(ws), w.request, r);
  }

  lemma WaitingFirst(w: Waiter, ws: seq<Waiter>, r: RequestId)
    ensures Count(Waiting([w] + ws), r) == One(w.request, r) + Count(Waiting(ws), r)
  {
    assert Waiting([w] + ws)[1..] == Waiting(ws);
  }

  lemma NewRequestAnswered(n: nat, leaving: seq<RequestId>, ws: seq<Waiter>, log: seq<Completion>, c: Completion)
    requires EachOnce(n, leaving, ws, log) && c.request == n
    ensures EachOnce(n + 1, leaving, ws, log + [c])
  {
    forall r ensures Count(Answered(log + [c]), r) == Count(Answered(log), r) + One(n, r) {
      AnsweredMore(log, c, r);
    }
  }

  lemma NewRequestLeaves(n: nat, leaving: seq<RequestId>, ws: seq<Waiter>, log: seq<Completion>)
    requires EachOnce(n, leaving, ws, log)
    ensures EachOnce(n + 1, leaving + [n], ws, log)
  {
    forall r ensures Count(leaving + [n], r) == Count(leaving, r) + One(n, r) {
      CountAppend(leaving, n, r);
    }
  }

  lemma LeavingQueued(n: nat, leaving: seq<RequestId>, ws: seq<Waiter>, log: seq<Completion>, k: nat, w: Waiter)
    requires EachOnce(n, leaving, ws, log) && k < |leaving| && w.request == leaving[k]
    ensures EachOnce(n, Cut(leaving, k), ws + [w], log)
  {
    forall r: RequestId ensures Count(Cut(leaving, k), r) + Count(Waiting(ws + [w]), r) == Count(leaving, r) + Count(Waiting(ws), r) {
      CountCut(leaving, k, r);
      WaitingMore(ws, w, r);
    }
  }

  lemma LeavingAnswered(n: nat, leaving: seq<RequestId>, ws: seq<Waiter>, log: seq<Completion>, k: nat, c: Completion)
    requires EachOnce(n, leaving, ws, log) && k < |leaving| && c.request == leaving[k]
    ensures EachOnce(n, Cut(leaving, k), ws, log + [c])
  {
    forall r: RequestId ensures Count(Cut(leaving, k), r) + Count(Answered(log + [c]), r) == Count(leaving, r) + Count(Answered(log), r) {
      CountCut(leaving, k, r);
      AnsweredMore(log, c, r);
    }
  }

  lemma WaitersAnswered(n: nat, leaving: seq<RequestId>, ws: seq<Waiter>, log: seq<Completion>,
                        rest: seq<Waiter>, gone: seq<Waiter>, cs: seq<Completion>)
    requires EachOnce(n, leaving, ws, log)
    requires forall r: RequestId :: Count(Waiting(rest), r) + Count(Waiting(gone), r) == Count(Waiting(ws), r)
    requires Answered(cs) == Waiting(gone)
    ensures EachOnce(n, leaving, rest, log + cs)
  {
    assert Answered(log + cs) == Answered(log) + Answered(cs);
    forall r: RequestId ensures Count(Answered(log + cs), r) == Count(Answered(log), r) + Count(Waiting(gone), r) {
      CountConcat(Answered(log), Answered(cs), r);
    }
  }

  /** The first waiter is answered. */
  lemma FirstAnswered(n: nat, leaving: seq<RequestId>, ws: seq<Waiter>, log: seq<Completion>, c: Completion)
    requires EachOnce(n, leaving, ws, log) && ws != [] && c.request == ws[0].request
    ensures EachOnce(n, leaving, ws[1..], log + [c])
  {
    forall r ensures Count(Waiting(ws[1..]), r) + Count(Waiting([ws[0]]), r) == Count(Waiting(ws), r) {
      WaitingFirst(ws[0], ws[1..], r);
      WaitingMore([], ws[0], r);
      assert ws == [ws[0]] + ws[1..] && [] + [ws[0]] == [ws[0]];
    }
    WaitersAnswered(n, leaving, ws, log, ws[1..], [ws[0]], [c]);
  }

  lemma {:induction false} WaitingSplits(ws: seq<Waiter>, t: Ticks, r: RequestId)
    ensures Count(Waiting(Beyond(ws, t)), r) + Count(Waiting(UpTo(ws, t)), r) == Count(Waiting(ws), r)
  {
    if ws != [] {
      WaitingSplits(ws[1..], t, r);
      WaitingFirst(ws[0], ws[1..], r);
      assert ws == [ws[0]] + ws[1..];
      if ws[0].deadline > t {
        WaitingFirst(ws[0], Beyond(ws[1..], t), r);
        assert UpTo(ws, t) == UpTo(ws[1..], t);
      } else {
        WaitingFirst(ws[0], UpTo(ws[1..], t), r);
        assert Beyond(ws, t) == Beyond(ws[1..], t);
      }
    }
  }

  lemma {:induction false} WaitingInsert(ws: seq<Waiter>, w: Waiter, r: RequestId)
    ensures Count(Waiting(Insert(ws, w)), r) == Count(Waiting(ws), r) + One(w.request, r)
  {
    if ws == [] || ws[|ws| - 1].deadline <= w.deadline {
      WaitingMore(ws, w, r);
    } else {
      var front, last := ws[..|ws| - 1], ws[|ws| - 1];
      WaitingInsert(front, w, r);
      WaitingMore(front, last, r);
      WaitingMore(Insert(front, w), last, r);
      assert ws == front + [last];
    }
  }

  lemma {:induction false} WaitingByDeadline(ws: seq<Waiter>, r: RequestId)
    ensures Count(Waiting(ByDeadline(ws)), r) == Count(Waiting(ws), r)
  {
    if ws != [] {
      var front, last := ws[..|ws| - 1], ws[|ws| - 1];
      WaitingByDeadline(front, r);
      WaitingInsert(ByDeadline(front), last, r);
      WaitingMore(front, last, r);
      assert ws == front + [last];
    }
  }

  // ---------- one event at a time ----------

  /** The same completions are posted and logged. */
  lemma EmitKeepsLog(s: System, t: System, cs: seq<Completion>)
    requires forall c: Completion :: Count(s.log, c) == Count(s.pending, c) + Count(s.ran, c)
    requires t.log == s.log + cs && t.pending == s.pending + cs && t.ran == s.ran
    ensures forall c: Completion :: Count(t.log, c) == Count(t.pending, c) + Count(t.ran, c)
  {
    forall c ensures Count(t.log, c) == Count(t.pending, c) + Count(t.ran, c) {
      CountConcat(s.log, cs, c);
      CountConcat(s.pending, cs, c);
    }
  }

  lemma CallKeepsAccounted(s: System, ask: Ask, at: Ticks)
    requires Accounted(s)
    ensures Accounted(AfterCall(s, ask, at))
  {
    var n := |s.asked|;
    var c := GetBegin(s.pool, n, ask.ctx, ask.wait, at).1;
    EmitKeepsLog(s, AfterCall(s, ask, at), Given(c));
    if c.Some? {
      NewRequestAnswered(n, s.leaving, s.pool.queue.waiters, s.log, c.value);
    } else {
      NewRequestLeaves(n, s.leaving, s.pool.queue.waiters, s.log);
      assert s.log + [] == s.log;
    }
  }

  lemma EnqueueKeepsAccounted(s: System, k: nat, at: Ticks)
    requires Accounted(s) && k < |s.leaving| && s.leaving[k] < |s.asked|
    ensures Accounted(AfterEnqueue(s, k, at))
  {
    var r := s.leaving[k];
    var q := s.pool.queue;
    var c := GetPush(s.pool, r, s.asked[r].ctx, s.asked[r].wait, at).1;
    EmitKeepsLog(s, AfterEnqueue(s, k, at), Given(c));
    if c.Some? {
      LeavingAnswered(|s.asked|, s.leaving, q.waiters, s.log, k, c.value);
    } else {
      var w := Waiter(r, s.asked[r].ctx, Add(at, s.asked[r].wait), q.nextTicket);
      LeavingQueued(|s.asked|, s.leaving, q.waiters, s.log, k, w);
      assert s.log + [] == s.log;
    }
  }

  lemma RunKeepsAccounted(s: System, k: nat)
    requires Accounted(s) && k < |s.pending| && s.pending[k].request < |s.asked|
    ensures Accounted(AfterRun(s, k))
  {
    forall c ensures Count(Cut(s.pending, k), c) + Count(s.ran + [s.pending[k]], c) == Count(s.pending, c) + Count(s.ran, c) {
      CountCut(s.pending, k, c);
      CountAppend(s.ran, s.pending[k], c);
    }
  }

  lemma ReturnKeepsAccounted(s: System, h: nat, how: Strategy, at: Ticks)
    requires Accounted(s) && InPool(s, h)
    ensures Accounted(AfterReturn(s, h, how, at))
  {
    if s.handles[h].cell.Some? {
      var ws := s.pool.queue.waiters;
      var c := Release(s.pool, how, s.handles[h].cell.value, at).1;
      EmitKeepsLog(s, AfterReturn(s, h, how, at), Given(c));
      if c.Some? {
        FirstAnswered(|s.asked|, s.leaving, ws, s.log, c.value);
      } else {
        assert s.log + [] == s.log;
      }
    }
  }

  lemma ExpireKeepsAccounted(s: System, k: nat, at: Ticks)
    requires Accounted(s) && k < |s.ready|
    ensures Accounted(AfterTimerHandler(s, k, at))
  {
    var ws, t := s.pool.queue.waiters, s.ready[k];
    var due := ByDeadline(UpTo(ws, t));
    var cs := FailAll(due, GetResourceTimeout, Post);
    EmitKeepsLog(s, AfterTimerHandler(s, k, at), cs);
    forall r: RequestId ensures Count(Waiting(Beyond(ws, t)), r) + Count(Waiting(due), r) == Count(Waiting(ws), r) {
      WaitingSplits(ws, t, r);
      WaitingByDeadline(UpTo(ws, t), r);
    }
    assert Answered(cs) == Waiting(due);
    WaitersAnswered(|s.asked|, s.leaving, ws, s.log, Beyond(ws, t), due, cs);
  }

  lemma DrainKeepsAccounted(s: System)
    requires Accounted(s)
    ensures Accounted(AfterDrainOne(s))
  {
    var ws := s.pool.queue.waiters;
    if ws != [] {
      EmitKeepsLog(s, AfterDrainOne(s), [Refused(ws[0])]);
      FirstAnswered(|s.asked|, s.leaving, ws, s.log, Refused(ws[0]));
    }
  }

  lemma EventKeepsAccounted(s: System, e: Event)
    requires Accounted(s) && Enabled(s, e)
    ensures Accounted(After(s, e))
  {
    match e
    case Call(ask, at) => CallKeepsAccounted(s, ask, at);
    case Enqueue(k, at) => EnqueueKeepsAccounted(s, k, at);
    case Run(k) => RunKeepsAccounted(s, k);
    case Return(h, how, at) => ReturnKeepsAccounted(s, h, how, at);
    case Destroy(h, at) => ReturnKeepsAccounted(s, h, s.handles[h].strategy, at);
    case Assign(h, from, at) => ReturnKeepsAccounted(s, h, s.handles[h].strategy, at);
    case DrainOne => DrainKeepsAccounted(s);
    case TimerHandler(k, at) => ExpireKeepsAccounted(s, k, at);
    case AbortedHandler(d) => assert s.log + [] == s.log && s.pending + [] == s.pending;
    case _ =>
  }

  lemma ReturnKeepsAnswers(s: System, h: nat, how: Strategy, at: Ticks)
    requires InPool(s, h)
    ensures s.log <= AfterReturn(s, h, how, at).log && s.ran == AfterReturn(s, h, how, at).ran
  {
  }

  lemma EventKeepsAnswers(s: System, e: Event)
    requires Enabled(s, e)
    ensures s.log <= After(s, e).log && s.ran <= After(s, e).ran
  {
    match e
    case Return(h, how, at) => ReturnKeepsAnswers(s, h, how, at);
    case Destroy(h, at) => ReturnKeepsAnswers(s, h, s.handles[h].strategy, at);
    case Assign(h, from, at) => ReturnKeepsAnswers(s, h, s.handles[h].strategy, at);
    case _ =>
  }

  // ---------- every run ----------

  lemma StartIsAccounted(stock: Stock, queueCapacity: nat, idle: Ticks, life: Ticks, now: Ticks)
    ensures Accounted(Start(stock, queueCapacity, idle, life, now))
  {
  }

  lemma {:induction false} RunsKeepAccounted(s: System, es: seq<Event>)
    requires Accounted(s) && CanRun(s, es)
    ensures Accounted(RunAll(s, es))
    decreases |es|
  {
    if es != [] {
      EventKeepsAccounted(s, es[0]);
      RunsKeepAccounted(After(s, es[0]), es[1..]);
    }
  }

  lemma {:induction false} RunsKeepAnswers(s: System, es: seq<Event>)
    requires CanRun(s, es)
    ensures s.log <= RunAll(s, es).log && s.ran <= RunAll(s, es).ran
    decreases |es|
  {
    if es != [] {
      var t := After(s, es[0]);
      EventKeepsAnswers(s, es[0]);
      RunsKeepAnswers(t, es[1..]);
    }
  }

  datatype Place = Leaving | Queued | Done

  /** Request r is at this place. */
  predicate IsAt(s: System, r: RequestId, p: Place) {
    match p
    case Leaving => r in s.leaving
    case Queued => r in Waiting(s.pool.queue.waiters)
    case Done => r in Answered(s.log)
  }

  ghost predicate OnePlaceEach(s: System) {
    && (forall r: RequestId, p: Place :: IsAt(s, r, p) ==> r < |s.asked|)
    && (forall r: RequestId :: r < |s.asked| ==> IsAt(s, r, Leaving) || IsAt(s, r, Queued) || IsAt(s, r, Done))
    && (forall r: RequestId, p: Place, p': Place :: IsAt(s, r, p) && IsAt(s, r, p') ==> p == p')
    && (forall i, j :: 0 <= i < j < |s.log| ==> s.log[i].request != s.log[j].request)
  }

  lemma AccountedMeansOnePlace(s: System)
    requires Accounted(s)
    ensures OnePlaceEach(s)
  {
    var ws := Waiting(s.pool.queue.waiters);
    forall r: RequestId
      ensures Count(s.leaving, r) == 0 <==> !IsAt(s, r, Leaving)
      ensures Count(ws, r) == 0 <==> !IsAt(s, r, Queued)
      ensures Count(Answered(s.log), r) == 0 <==> !IsAt(s, r, Done)
    {
      CountZero(s.leaving, r);
      CountZero(ws, r);
      CountZero(Answered(s.log), r);
    }
    forall i, j | 0 <= i < j < |s.log| && s.log[i].request == s.log[j].request ensures false {
      CountTwo(Answered(s.log), i, j);
    }
  }

  /** The same for the entries of the three places. */
  lemma PlacesApart(s: System)
    requires Accounted(s)
    ensures forall r :: r in s.leaving ==> r < |s.asked|
    ensures forall w :: w in s.pool.queue.waiters ==> w.request < |s.asked| && w.request !in s.leaving
    ensures forall c :: c in s.log ==> c.request < |s.asked| && c.request !in s.leaving
    ensures forall c, w :: c in s.log && w in s.pool.queue.waiters ==> c.request != w.request
  {
    AccountedMeansOnePlace(s);
    var ws := s.pool.queue.waiters;
    forall r | r in s.leaving ensures r < |s.asked| {
      assert IsAt(s, r, Leaving);
    }
    forall w | w in ws ensures w.request < |s.asked| && w.request !in s.leaving && IsAt(s, w.request, Queued) {
      var i :| 0 <= i < |ws| && ws[i] == w;
      assert Waiting(ws)[i] == w.request;
      assert IsAt(s, w.request, Queued) && !IsAt(s, w.request, Leaving);
    }
    forall c | c in s.log ensures c.request < |s.asked| && c.request !in s.leaving && !IsAt(s, c.request, Queued) {
      var i :| 0 <= i < |s.log| && s.log[i] == c;
      assert Answered(s.log)[i] == c.request;
      assert IsAt(s, c.request, Done) && !IsAt(s, c.request, Leaving);
    }
  }

  /** In every state of every run each request made is on its way to the queue, or in it, or
      answered, and only one of these; no request is answered twice; an answer, once given, stays
      as it is; and the answers given are those whose handlers have run and those still to run. */
  lemma EveryRequestIsAnsweredOnce(s: System, later: seq<Event>)
    requires Reachable(s) && CanRun(s, later)
    ensures OnePlaceEach(s)
    ensures forall c: Completion :: Count(s.log, c) == Count(s.pending, c) + Count(s.ran, c)
    ensures s.log <= RunAll(s, later).log && s.ran <= RunAll(s, later).ran
  {
    var stock, queueCapacity, idle, life, now, es :| Reaches(stock, queueCapacity, idle, life, now, es, s);
    var s0 := Start(stock, queueCapacity, idle, life, now);
    StartIsAccounted(stock, queueCapacity, idle, life, now);
    RunsKeepAccounted(s0, es);
    AccountedMeansOnePlace(s);
    RunsKeepAnswers(s, later);
  }

  /** When nothing is left on its way or in the queue, every request has been answered. */
  lemma AllAnsweredWhenIdle(s: System, r: RequestId)
    requires Accounted(s) && s.leaving == [] && s.pool.queue.waiters == [] && r < |s.asked|
    ensures exists i :: 0 <= i < |s.log| && s.log[i].request == r
  {
    AccountedMeansOnePlace(s);
    assert IsAt(s, r, Done);
    var i :| 0 <= i < |s.log| && Answered(s.log)[i] == r;
    assert s.log[i].request == r;
  }

  // ---------- a disabled pool ----------

  /** In a disabled pool only requests made before number n are still waiting, and the others have
      all been answered with the disabled error. */
  ghost predicate Refusing(s: System, n: nat) {
    && s.pool.disabled
    && (forall r :: r in s.leaving ==> r < n)
    && (forall w :: w in s.pool.queue.waiters ==> w.request < n)
    && (forall c :: c in s.log && c.request >= n ==> c.outcome == Failed(Disabled))
  }

  lemma RefusingMore(s: System, t: System, n: nat, cs: seq<Completion>)
    requires Refusing(s, n) && t.pool.disabled && t.log == s.log + cs
    requires forall r :: r in t.leaving ==> r in s.leaving
    requires forall w :: w in t.pool.queue.waiters ==> w in s.pool.queue.waiters || w.request < n
    requires forall c :: c in cs ==> c.request < n || c.outcome == Failed(Disabled)
    ensures Refusing(t, n)
  {
  }

  lemma ReturnKeepsRefusing(s: System, h: nat, how: Strategy, at: Ticks, n: nat)
    requires Refusing(s, n) && InPool(s, h)
    ensures Refusing(AfterReturn(s, h, how, at), n)
  {
    if s.handles[h].cell.Some? {
      var w := Release(s.pool, how, s.handles[h].cell.value, at).1;
      assert s.pool.queue.waiters != [] ==> s.pool.queue.waiters[0] in s.pool.queue.waiters;
      RefusingMore(s, AfterReturn(s, h, how, at), n, Given(w));
    }
  }

  lemma EnqueueKeepsRefusing(s: System, k: nat, at: Ticks, n: nat)
    requires Refusing(s, n) && k < |s.leaving| && s.leaving[k] < |s.asked|
    ensures Refusing(AfterEnqueue(s, k, at), n)
  {
    assert s.leaving[k] in s.leaving;
    var c := GetPush(s.pool, s.leaving[k], s.asked[s.leaving[k]].ctx, s.asked[s.leaving[k]].wait, at).1;
    assert forall r :: r in Cut(s.leaving, k) ==> r in s.leaving;
    RefusingMore(s, AfterEnqueue(s, k, at), n, Given(c));
  }

  lemma TimerHandlerKeepsRefusing(s: System, k: nat, at: Ticks, n: nat)
    requires Refusing(s, n) && k < |s.ready|
    ensures Refusing(AfterTimerHandler(s, k, at), n)
  {
    var due := ByDeadline(UpTo(s.pool.queue.waiters, s.ready[k]));
    var cs := FailAll(due, GetResourceTimeout, Post);
    forall c | c in cs ensures c.request < n {
      var i :| 0 <= i < |cs| && cs[i] == c;
      DueMembers(UpTo(s.pool.queue.waiters, s.ready[k]), due[i]);
      assert due[i] in due;
    }
    RefusingMore(s, AfterTimerHandler(s, k, at), n, cs);
  }

  lemma QuietKeepsRefusing(s: System, e: Event, n: nat)
    requires Refusing(s, n) && Enabled(s, e) && IsQuiet(e)
    ensures Refusing(After(s, e), n) && After(s, e).asked == s.asked
  {
    QuietEvent(s, e);
    assert e.DisableAll? ==> After(s, e).pool.disabled;
  }

  lemma EventKeepsRefusing(s: System, e: Event, n: nat)
    requires Refusing(s, n) && Enabled(s, e)
    ensures Refusing(After(s, e), n) && |s.asked| <= |After(s, e).asked|
  {
    match e
    case Call(ask, at) =>
      RefusingMore(s, AfterCall(s, ask, at), n,
                   [Completion(|s.asked|, ask.ctx, Failed(Disabled), Dispatch)]);
    case Enqueue(k, at) => EnqueueKeepsRefusing(s, k, at, n);
    case Return(h, how, at) => ReturnKeepsRefusing(s, h, how, at, n);
    case Destroy(h, at) => ReturnKeepsRefusing(s, h, s.handles[h].strategy, at, n);
    case Assign(h, from, at) => ReturnKeepsRefusing(s, h, s.handles[h].strategy, at, n);
    case DrainOne =>
      if s.pool.queue.waiters != [] {
        RefusingMore(s, AfterDrainOne(s), n, [Refused(s.pool.queue.waiters[0])]);
      }
    case TimerHandler(k, at) => TimerHandlerKeepsRefusing(s, k, at, n);
    case _ => QuietKeepsRefusing(s, e, n);
  }

  lemma {:induction false} RunsKeepRefusing(s: System, es: seq<Event>, n: nat)
    requires Refusing(s, n) && CanRun(s, es)
    ensures Refusing(RunAll(s, es), n)
    decreases |es|
  {
    if es != [] {
      EventKeepsRefusing(s, es[0], n);
      RunsKeepRefusing(After(s, es[0]), es[1..], n);
    }
  }

  /** Once the pool is disabled, every request made from then on is answered, and with the disabled
      error. Requests that were past the pool's lock by then may still be queued and served. */
  lemma DisabledRefusesNewRequests(s: System, es: seq<Event>, r: RequestId)
    requires Accounted(s) && s.pool.disabled && CanRun(s, es)
    requires |s.asked| <= r < |RunAll(s, es).asked|
    ensures exists i :: 0 <= i < |RunAll(s, es).log| && RunAll(s, es).log[i].request == r
                        && RunAll(s, es).log[i].outcome == Failed(Disabled)
  {
    var n, t := |s.asked|, RunAll(s, es);
    PlacesApart(s);
    RunsKeepRefusing(s, es, n);
    RunsKeepAccounted(s, es);
    AccountedMeansOnePlace(t);
    assert !IsAt(t, r, Leaving);
    var ws := t.pool.queue.waiters;
    assert forall i :: 0 <= i < |ws| ==> ws[i] in ws && Waiting(ws)[i] < n;
    assert !IsAt(t, r, Queued);
    var i :| 0 <= i < |t.log| && Answered(t.log)[i] == r;
    assert t.log[i] in t.log;
  }
}
