/** The request queue as one sequence of waiters plus the timers armed for it. */
module QueueSpec {
  import opened Wrappers
  import opened TimeTraits

  type RequestId = nat
  type IoContext = nat

  /** A queued request. `ticket` counts pushes: it tells which of two waiters came first. */
  datatype Waiter = Waiter(request: RequestId, ctx: IoContext, deadline: Ticks, ticket: nat)

  /** A waitable timer: its expiry, and the deadlines captured by the waits pending on it. */
  datatype Timer = Timer(expiry: Ticks, waits: seq<Ticks>)

  datatype QueueState = QueueState(
    capacity: nat,
    waiters: seq<Waiter>,
    nextTicket: nat,
    timers: map<IoContext, Timer>)

  // ---------- the order in which waiters time out ----------

  /** Deadline first, arrival second. */
  predicate Before(a: Waiter, b: Waiter) {
    a.deadline < b.deadline || (a.deadline == b.deadline && a.ticket < b.ticket)
  }

  ghost predicate Arrival(ws: seq<Waiter>) {
    forall i, j :: 0 <= i < j < |ws| ==> ws[i].ticket < ws[j].ticket
  }

  ghost predicate Expiring(ws: seq<Waiter>) {
    forall i, j :: 0 <= i < j < |ws| ==> Before(ws[i], ws[j])
  }

  /** Insertion behind every entry with the same or an earlier deadline. */
  function Insert(ws: seq<Waiter>, w: Waiter): (r: seq<Waiter>)
    ensures |r| == |ws| + 1
  {
    if ws == [] || ws[|ws| - 1].deadline <= w.deadline then ws + [w]
    else Insert(ws[..|ws| - 1], w) + [ws[|ws| - 1]]
  }

  /** The waiters in the order they time out. */
  function ByDeadline(ws: seq<Waiter>): (r: seq<Waiter>)
    ensures |r| == |ws|
  {
    if ws == [] then [] else Insert(ByDeadline(ws[..|ws| - 1]), ws[|ws| - 1])
  }

  lemma {:induction false} InsertAdds(ws: seq<Waiter>, w: Waiter)
    ensures multiset(Insert(ws, w)) == multiset(ws) + multiset{w}
  {
    if ws != [] && ws[|ws| - 1].deadline > w.deadline {
      InsertAdds(ws[..|ws| - 1], w);
      assert ws == ws[..|ws| - 1] + [ws[|ws| - 1]];
    }
  }

  lemma {:induction false} ByDeadlineRearranges(ws: seq<Waiter>)
    ensures multiset(ByDeadline(ws)) == multiset(ws)
  {
    if ws != [] {
      var front := ws[..|ws| - 1];
      ByDeadlineRearranges(front);
      InsertAdds(ByDeadline(front), ws[|ws| - 1]);
      assert ws == front + [ws[|ws| - 1]];
    }
  }

  lemma DueMembers(ws: seq<Waiter>, w: Waiter)
    ensures w in ByDeadline(ws) <==> w in ws
  {
    ByDeadlineRearranges(ws);
    assert w in ws <==> w in multiset(ws);
    assert w in ByDeadline(ws) <==> w in multiset(ByDeadline(ws));
  }

  lemma {:induction false} InsertKeepsOrder(ws: seq<Waiter>, w: Waiter)
    requires Expiring(ws)
    requires forall i :: 0 <= i < |ws| ==> ws[i].ticket < w.ticket
    ensures Expiring(Insert(ws, w))
  {
    if ws != [] && ws[|ws| - 1].deadline > w.deadline {
      var front, last := ws[..|ws| - 1], ws[|ws| - 1];
      InsertKeepsOrder(front, w);
      var r := Insert(front, w);
      forall i | 0 <= i < |r| ensures Before(r[i], last) {
        InsertAdds(front, w);
        assert r[i] in multiset(r);
        assert r[i] == w || r[i] in front;
      }
    }
  }

  lemma {:induction false} ByDeadlineKeepsOrder(ws: seq<Waiter>)
    requires Arrival(ws)
    ensures Expiring(ByDeadline(ws))
  {
    if ws != [] {
      var front, last := ws[..|ws| - 1], ws[|ws| - 1];
      ByDeadlineKeepsOrder(front);
      var r := ByDeadline(front);
      forall i | 0 <= i < |r| ensures r[i].ticket < last.ticket {
        DueMembers(front, r[i]);
        assert r[i] in r;
      }
      InsertKeepsOrder(r, last);
    }
  }

  /** There is only one way to arrange a set of waiters by a strict order. */
  lemma {:induction false} ArrangementIsUnique(less: (Waiter, Waiter) -> bool, a: seq<Waiter>, b: seq<Waiter>)
    requires forall v, w :: less(v, w) ==> !less(w, v)
    requires forall i, j :: 0 <= i < j < |a| ==> less(a[i], a[j])
    requires forall i, j :: 0 <= i < j < |b| ==> less(b[i], b[j])
    requires forall w :: w in a <==> w in b
    ensures a == b
  {
    assert a != [] ==> a[0] in a;
    assert b != [] ==> b[0] in b;
    if a != [] && b != [] {
      assert a[0] == b[0];
      var a', b' := a[1..], b[1..];
      forall w ensures w in a' <==> w in b' {
        assert w in a' ==> w != a[0] && w in a;
        assert w in b' ==> w != b[0] && w in b;
      }
      ArrangementIsUnique(less, a', b');
      assert a == [a[0]] + a';
    }
  }

  lemma ExpiryOrderIsUnique(a: seq<Waiter>, b: seq<Waiter>)
    requires Expiring(a) && Expiring(b)
    requires forall w :: w in a <==> w in b
    ensures a == b
  {
    ArrangementIsUnique(Before, a, b);
  }

  lemma ArrivalOrderIsUnique(a: seq<Waiter>, b: seq<Waiter>)
    requires Arrival(a) && Arrival(b)
    requires forall w :: w in a <==> w in b
    ensures a == b
  {
    ArrangementIsUnique((v: Waiter, w: Waiter) => v.ticket < w.ticket, a, b);
  }

  // ---------- timers ----------

  /** `timer.expires_at(t)`: pending waits are aborted. */
  function ExpiresAt(timer: Timer, t: Ticks): Timer {
    Timer(t, [])
  }

  function AsyncWait(timer: Timer, captured: Ticks): Timer {
    timer.(waits := timer.waits + [captured])
  }

  function GetTimer(timers: map<IoContext, Timer>, ctx: IoContext): Timer {
    if ctx in timers then timers[ctx] else Timer(EPOCH, [])
  }

  /** The waiter that times out first. */
  function Earliest(ws: seq<Waiter>): (w: Waiter)
    requires ws != []
    ensures w in ws
  {
    DueMembers(ws, ByDeadline(ws)[0]);
    ByDeadline(ws)[0]
  }

  lemma EarliestIsFirst(ws: seq<Waiter>)
    requires ws != [] && Arrival(ws)
    ensures forall w :: w in ws && w != Earliest(ws) ==> Before(Earliest(ws), w)
    ensures forall w :: w in ws ==> Earliest(ws).deadline <= w.deadline
  {
    ByDeadlineKeepsOrder(ws);
    forall w | w in ws && w != Earliest(ws) ensures Before(Earliest(ws), w) {
      DueMembers(ws, w);
    }
  }

  function UpdateTimer(q: QueueState): QueueState {
    if q.waiters == [] then q.(timers := map[])
    else
      var w := Earliest(q.waiters);
      q.(timers := q.timers[w.ctx := AsyncWait(ExpiresAt(GetTimer(q.timers, w.ctx), w.deadline), w.deadline)])
  }

  // ---------- operations ----------

  function Push(q: QueueState, ctx: IoContext, wait: Ticks, request: RequestId, now: Ticks): (QueueState, bool) {
    if |q.waiters| >= q.capacity then (q, false)
    else
      var w := Waiter(request, ctx, Add(now, wait), q.nextTicket);
      (UpdateTimer(q.(waiters := q.waiters + [w], nextTicket := q.nextTicket + 1)), true)
  }

  function Pop(q: QueueState): (QueueState, Option<Waiter>) {
    if q.waiters == [] then (q, None)
    else (UpdateTimer(q.(waiters := q.waiters[1..])), Some(q.waiters[0]))
  }

  function Beyond(ws: seq<Waiter>, t: Ticks): (r: seq<Waiter>)
    ensures forall w :: w in r <==> w in ws && w.deadline > t
  {
    if ws == [] then [] else (if ws[0].deadline > t then [ws[0]] else []) + Beyond(ws[1..], t)
  }

  function UpTo(ws: seq<Waiter>, t: Ticks): (r: seq<Waiter>)
    ensures forall w :: w in r <==> w in ws && w.deadline <= t
  {
    if ws == [] then [] else (if ws[0].deadline <= t then [ws[0]] else []) + UpTo(ws[1..], t)
  }

  /** What a timer wait that completed with `aborted` and captured deadline `t` does:
      the new queue and the waiters it times out, in the order their handlers are posted. */
  function Cancel(q: QueueState, aborted: bool, t: Ticks): (QueueState, seq<Waiter>) {
    if aborted then (q, [])
    else (UpdateTimer(q.(waiters := Beyond(q.waiters, t))), ByDeadline(UpTo(q.waiters, t)))
  }

  // ---------- invariant ----------

  /** Some wait on the right timer will fire at the earliest deadline. */
  ghost predicate Armed(q: QueueState) {
    q.waiters != [] ==>
      var w := Earliest(q.waiters);
      w.ctx in q.timers && q.timers[w.ctx] == Timer(w.deadline, [w.deadline])
  }

  /** Every pending wait captured the expiry of its timer, and a timer has at most one. */
  ghost predicate WaitsMatch(q: QueueState) {
    forall ctx :: ctx in q.timers ==> q.timers[ctx].waits == [] || q.timers[ctx].waits == [q.timers[ctx].expiry]
  }

  ghost predicate QueueInv(q: QueueState) {
    && |q.waiters| <= q.capacity
    && Arrival(q.waiters)
    && (forall w :: w in q.waiters ==> w.ticket < q.nextTicket)
    && WaitsMatch(q)
    && (q.waiters == [] ==> forall ctx :: ctx in q.timers ==> q.timers[ctx].waits == [])
  }

  lemma UpdateTimerArms(q: QueueState)
    requires WaitsMatch(q)
    ensures Armed(UpdateTimer(q)) && WaitsMatch(UpdateTimer(q))
    ensures UpdateTimer(q).waiters == q.waiters && UpdateTimer(q).capacity == q.capacity
    ensures UpdateTimer(q).nextTicket == q.nextTicket
    ensures q.waiters == [] ==> UpdateTimer(q).timers == map[]
    ensures q.waiters != [] ==>
              && UpdateTimer(q).timers.Keys == q.timers.Keys + {Earliest(q.waiters).ctx}
              && (forall ctx :: ctx in q.timers && ctx != Earliest(q.waiters).ctx ==>
                    UpdateTimer(q).timers[ctx] == q.timers[ctx])
  {
  }

  lemma PushKeepsInv(q: QueueState, ctx: IoContext, wait: Ticks, request: RequestId, now: Ticks)
    requires QueueInv(q)
    ensures QueueInv(Push(q, ctx, wait, request, now).0)
    ensures Push(q, ctx, wait, request, now).1 ==> Armed(Push(q, ctx, wait, request, now).0)
    ensures Push(q, ctx, wait, request, now).1 <==> |q.waiters| < q.capacity
    ensures !Push(q, ctx, wait, request, now).1 ==> Push(q, ctx, wait, request, now).0 == q
  {
    if |q.waiters| < q.capacity {
      var w := Waiter(request, ctx, Add(now, wait), q.nextTicket);
      UpdateTimerArms(q.(waiters := q.waiters + [w], nextTicket := q.nextTicket + 1));
    }
  }

  lemma PopKeepsInv(q: QueueState)
    requires QueueInv(q)
    ensures QueueInv(Pop(q).0)
    ensures q.waiters != [] ==> Armed(Pop(q).0)
  {
    if q.waiters != [] {
      UpdateTimerArms(q.(waiters := q.waiters[1..]));
    }
  }

  lemma ArrivalFirst(w: Waiter, ws: seq<Waiter>)
    requires Arrival(ws) && forall v :: v in ws ==> w.ticket < v.ticket
    ensures Arrival([w] + ws)
  {
    var r := [w] + ws;
    forall i, j | 0 <= i < j < |r| ensures r[i].ticket < r[j].ticket {
      assert r[j] == ws[j - 1] && ws[j - 1] in ws;
    }
  }

  lemma RestArrivesLater(ws: seq<Waiter>)
    requires ws != [] && Arrival(ws)
    ensures Arrival(ws[1..]) && forall v :: v in ws[1..] ==> ws[0].ticket < v.ticket
  {
    forall v | v in ws[1..] ensures ws[0].ticket < v.ticket {
      var j :| 1 <= j < |ws| && ws[j] == v;
    }
  }

  lemma {:induction false} BeyondKeepsArrival(ws: seq<Waiter>, t: Ticks)
    requires Arrival(ws)
    ensures Arrival(Beyond(ws, t))
  {
    if ws != [] {
      RestArrivesLater(ws);
      BeyondKeepsArrival(ws[1..], t);
      ArrivalFirst(ws[0], Beyond(ws[1..], t));
    }
  }

  lemma {:induction false} UpToKeepsArrival(ws: seq<Waiter>, t: Ticks)
    requires Arrival(ws)
    ensures Arrival(UpTo(ws, t))
  {
    if ws != [] {
      RestArrivesLater(ws);
      UpToKeepsArrival(ws[1..], t);
      ArrivalFirst(ws[0], UpTo(ws[1..], t));
    }
  }

  lemma {:induction false} SplitKeepsAll(ws: seq<Waiter>, t: Ticks)
    ensures |Beyond(ws, t)| + |UpTo(ws, t)| == |ws|
    ensures multiset(Beyond(ws, t)) + multiset(UpTo(ws, t)) == multiset(ws)
  {
    if ws != [] {
      SplitKeepsAll(ws[1..], t);
      assert ws == [ws[0]] + ws[1..];
    }
  }

  /** A completed wait for deadline t times out exactly the waiters due by t, posting them by
      deadline and then by arrival; the others keep their places and a wait is armed for the
      first of them. */
  lemma CancelTimesOutTheDue(q: QueueState, t: Ticks)
    requires QueueInv(q)
    ensures var (r, posted) := Cancel(q, false, t);
            && QueueInv(r) && Armed(r)
            && Expiring(posted)
            && (forall w :: w in posted <==> w in q.waiters && w.deadline <= t)
            && (forall w :: w in r.waiters <==> w in q.waiters && w.deadline > t)
            && multiset(r.waiters) + multiset(posted) == multiset(q.waiters)
            && |r.waiters| + |posted| == |q.waiters|
  {
    BeyondKeepsArrival(q.waiters, t);
    UpToKeepsArrival(q.waiters, t);
    SplitKeepsAll(q.waiters, t);
    ByDeadlineRearranges(UpTo(q.waiters, t));
    ByDeadlineKeepsOrder(UpTo(q.waiters, t));
    var (r, posted) := Cancel(q, false, t);
    UpdateTimerArms(q.(waiters := Beyond(q.waiters, t)));
    forall w ensures w in posted <==> w in UpTo(q.waiters, t) {
      DueMembers(UpTo(q.waiters, t), w);
    }
  }

  lemma CancelKeepsInv(q: QueueState, aborted: bool, t: Ticks)
    requires QueueInv(q)
    ensures QueueInv(Cancel(q, aborted, t).0)
  {
    if !aborted {
      CancelTimesOutTheDue(q, t);
    }
  }

  /** When the armed wait fires, the queue shrinks and every waiter left is due later. */
  lemma ArmedWaitMakesProgress(q: QueueState, t: Ticks)
    requires QueueInv(q) && q.waiters != [] && t >= Earliest(q.waiters).deadline
    ensures |Cancel(q, false, t).0.waiters| < |q.waiters|
    ensures Cancel(q, false, t).0.waiters != [] ==> Earliest(Cancel(q, false, t).0.waiters).deadline > t
  {
    CancelTimesOutTheDue(q, t);
    var (r, posted) := Cancel(q, false, t);
    assert Earliest(q.waiters) in posted;
    assert |posted| > 0;
  }
}
