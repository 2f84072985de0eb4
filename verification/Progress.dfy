/** No request can be stuck. From every state of the divided system there is a way on, in which no cell
    is given back and no new request made, and at the end of which every handler has run. */
module Progress {
  import opened Sequences
  import opened QueueSpec
  import opened Protocol
  import opened Completions
  import opened Timeouts
  import opened Fairness

  /** These events need nobody's help: no call of the pool, no handle given back. */
  ghost predicate Unaided(es: seq<Event>) {
    forall i :: 0 <= i < |es| ==> es[i].Enqueue? || es[i].Fire? || es[i].TimerHandler? || es[i].Run?
  }

  ghost predicate Sound(s: System) {
    Accounted(s) && TimersInv(s)
  }

  lemma EventKeepsSound(s: System, e: Event)
    requires Sound(s) && Enabled(s, e)
    ensures Sound(After(s, e))
  {
    EventKeepsAccounted(s, e);
    EventKeepsTimers(s, e);
  }

  // ---------- one event nearer to the end ----------

  /** Whether the wait for the earliest deadline still has to succeed. */
  ghost function Unfired(s: System): nat {
    if s.pool.queue.waiters != [] && Earliest(s.pool.queue.waiters).deadline !in s.ready then 1 else 0
  }

  /** Fewer requests on their way, or queued, or less to wait for, or fewer handlers to run. */
  ghost predicate Nearer(t: System, s: System) {
    || |t.leaving| < |s.leaving|
    || (|t.leaving| == |s.leaving|
        && (|| |t.pool.queue.waiters| < |s.pool.queue.waiters|
            || (|t.pool.queue.waiters| == |s.pool.queue.waiters|
                && (|| Unfired(t) < Unfired(s)
                    || (Unfired(t) == Unfired(s) && |t.pending| < |s.pending|)))))
  }

  lemma PushesOne(s: System)
    requires Sound(s) && s.leaving != []
    ensures Enabled(s, Enqueue(0, s.now))
    ensures var t := After(s, Enqueue(0, s.now)); Sound(t) && Nearer(t, s) && t.asked == s.asked
  {
    PlacesApart(s);
    assert s.leaving[0] in s.leaving;
    EventKeepsSound(s, Enqueue(0, s.now));
    assert |After(s, Enqueue(0, s.now)).leaving| < |s.leaving|;
  }

  /** The wait for the earliest deadline succeeds. */
  lemma WaitSucceeds(s: System) returns (e: Event)
    requires Sound(s) && s.pool.queue.waiters != [] && Unfired(s) == 1
    ensures e.Fire? && Enabled(s, e)
    ensures var t := After(s, e); Sound(t) && Nearer(t, s) && t.asked == s.asked
  {
    var w := Earliest(s.pool.queue.waiters);
    e := Fire(w.ctx, if s.now < w.deadline then w.deadline else s.now);
    assert Enabled(s, e);
    EventKeepsSound(s, e);
    QuietEvent(s, e);
    assert After(s, e).ready == s.ready + [w.deadline];
    assert After(s, e).ready[|s.ready|] == w.deadline;
  }

  /** And its handler runs. */
  lemma HandlerExpires(s: System) returns (e: Event)
    requires Sound(s) && s.pool.queue.waiters != [] && Unfired(s) == 0
    ensures e.TimerHandler? && Enabled(s, e)
    ensures var t := After(s, e); Sound(t) && Nearer(t, s) && t.asked == s.asked
  {
    var d := Earliest(s.pool.queue.waiters).deadline;
    var k :| 0 <= k < |s.ready| && s.ready[k] == d;
    e := TimerHandler(k, s.now);
    EventKeepsSound(s, e);
    assert Expires(s, e);
    WaitersShrink(s, e);
    assert After(s, e).leaving == s.leaving;
  }

  lemma PendingIsKnown(s: System)
    requires Accounted(s)
    ensures forall c :: c in s.pending ==> c.request < |s.asked|
  {
    PlacesApart(s);
    forall c | c in s.pending ensures c in s.log {
      CountZero(s.pending, c);
      CountZero(s.log, c);
    }
  }

  lemma RunsOne(s: System)
    requires Sound(s) && s.pending != []
    ensures Enabled(s, Run(0))
    ensures var t := After(s, Run(0)); Sound(t) && Nearer(t, s) && t.asked == s.asked
  {
    PendingIsKnown(s);
    assert s.pending[0] in s.pending;
    EventKeepsSound(s, Run(0));
    assert |After(s, Run(0)).pending| < |s.pending|;
  }

  ghost predicate Idle(s: System) {
    s.leaving == [] && s.pool.queue.waiters == [] && s.pending == []
  }

  lemma NextEvent(s: System) returns (e: Event, t: System)
    requires Sound(s) && !Idle(s)
    ensures e.Enqueue? || e.Fire? || e.TimerHandler? || e.Run?
    ensures Leads(s, e, t) && Sound(t) && Nearer(t, s) && t.asked == s.asked
  {
    if s.leaving != [] {
      PushesOne(s);
      e := Enqueue(0, s.now);
    } else if s.pool.queue.waiters == [] {
      RunsOne(s);
      e := Run(0);
    } else if Unfired(s) == 1 {
      e := WaitSucceeds(s);
    } else {
      e := HandlerExpires(s);
    }
    t := After(s, e);
  }

  // ---------- every request ----------

  /** The handler of request r has run. */
  ghost predicate HasRun(s: System, r: RequestId) {
    exists i :: 0 <= i < |s.ran| && s.ran[i].request == r
  }

  /** Nothing is left to do, and every request's handler has run. */
  ghost predicate Settled(s: System) {
    Idle(s) && forall r: RequestId :: r < |s.asked| ==> HasRun(s, r)
  }

  lemma IdleIsSettled(s: System)
    requires Accounted(s) && Idle(s)
    ensures Settled(s)
  {
    forall r: RequestId | r < |s.asked| ensures HasRun(s, r) {
      AllAnsweredWhenIdle(s, r);
      var i :| 0 <= i < |s.log| && s.log[i].request == r;
      CountZero(s.log, s.log[i]);
      CountZero(s.ran, s.log[i]);
      assert s.log[i] in s.ran;
      var j :| 0 <= j < |s.ran| && s.ran[j] == s.log[i];
    }
  }

  lemma {:induction false} SoundCanSettle(s: System) returns (es: seq<Event>)
    requires Sound(s)
    ensures Unaided(es) && CanRun(s, es) && Settled(RunAll(s, es)) && RunAll(s, es).asked == s.asked
    decreases |s.leaving|, |s.pool.queue.waiters|, Unfired(s), |s.pending|
  {
    if Idle(s) {
      es := [];
      IdleIsSettled(s);
    } else {
      var e, t := NextEvent(s);
      var rest := SoundCanSettle(t);
      RunFirst(s, e, rest);
      es := [e] + rest;
    }
  }

  /** From every reachable state some continuation, without any new request, answers all requests made
      and runs all their handlers. */
  lemma EveryRequestCanBeAnswered(s: System) returns (es: seq<Event>)
    requires Reachable(s)
    ensures Unaided(es) && CanRun(s, es) && Settled(RunAll(s, es)) && RunAll(s, es).asked == s.asked
  {
    var stock, queueCapacity, idle, life, now, before :| Reaches(stock, queueCapacity, idle, life, now, before, s);
    StartIsAccounted(stock, queueCapacity, idle, life, now);
    StartIsTimely(stock, queueCapacity, idle, life, now);
    RunsKeepAccounted(Start(stock, queueCapacity, idle, life, now), before);
    RunsKeepTimeouts(Start(stock, queueCapacity, idle, life, now), before);
    es := SoundCanSettle(s);
  }
}
