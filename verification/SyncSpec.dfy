/** The synchronous pool as a state and functions on it: the same storage, and get as a loop of
    passes between waits on a condition variable. */
module SyncSpec {
  import opened Wrappers
  import opened TimeTraits
  import opened StorageSpec
  import opened PoolSpec

  datatype SyncState = SyncState(storage: StorageState, disabled: bool)

  /** A call of get, which is also the thread that makes it. */
  type CallId = nat

  /** The condition variable: the calls asleep on it, and those awake and on their way back to the
      lock, woken by a notification or for no reason. */
  datatype WaitSet = WaitSet(sleeping: set<CallId>, woken: set<CallId>)

  /** notify_one wakes a sleeper of its own choice, if there is one. */
  predicate MayWake(w: WaitSet, chosen: Option<CallId>) {
    if w.sleeping == {} then chosen.None? else chosen.Some? && chosen.value in w.sleeping
  }

  function NotifyOne(w: WaitSet, chosen: Option<CallId>): WaitSet {
    if chosen.None? then w else WaitSet(w.sleeping - {chosen.value}, w.woken + {chosen.value})
  }

  function NotifyAll(w: WaitSet): WaitSet {
    WaitSet({}, w.woken + w.sleeping)
  }

  /** One turn of the loop in get, under the lock. None: the thread has to wait. */
  function Pass(p: SyncState, now: Ticks): (SyncState, Option<Outcome>) {
    if p.disabled then (p, Some(Failed(Disabled)))
    else
      var (s, cell) := Lease(p.storage, now);
      (p.(storage := s), if cell.Some? then Some(Granted(cell.value)) else None)
  }

  /** What another thread does while this one waits. A lease is a pass of another get. */
  datatype Act = Through(call: Call) | DisablePool

  predicate MayDo(p: SyncState, a: Act) {
    a.Through? ==> StorageSpec.Allowed(p.storage, a.call)
  }

  function Do(p: SyncState, a: Act): SyncState
    requires MayDo(p, a)
  {
    match a
    case DisablePool => p.(disabled := true)
    case Through(CallLease(now)) => Pass(p, now).0
    case Through(call) => p.(storage := Apply(p.storage, call))
  }

  predicate MayDoAll(p: SyncState, acts: seq<Act>)
    decreases |acts|
  {
    acts == [] || (MayDo(p, acts[0]) && MayDoAll(Do(p, acts[0]), acts[1..]))
  }

  function DoAll(p: SyncState, acts: seq<Act>): SyncState
    requires MayDoAll(p, acts)
    decreases |acts|
  {
    if acts == [] then p else DoAll(Do(p, acts[0]), acts[1..])
  }

  /** One wait: what the others did meanwhile, whether it ended with no_timeout, and the time of
      the pass that follows it in that case. */
  datatype Wait = Wait(others: seq<Act>, noTimeout: bool, now: Ticks)

  predicate WaitsAllowed(p: SyncState, waits: seq<Wait>)
    decreases |waits|
  {
    waits == [] || (MayDoAll(p, waits[0].others) && WaitsAllowed(DoAll(p, waits[0].others), waits[1..]))
  }

  /** The pool after the given waits, had the waiting thread never touched it. */
  function AfterWaits(p: SyncState, waits: seq<Wait>): SyncState
    requires WaitsAllowed(p, waits)
    decreases |waits|
  {
    if waits == [] then p else AfterWaits(DoAll(p, waits[0].others), waits[1..])
  }

  /** A whole call of get through the given waits. None: it has been through them all and waits on. */
  function Get(p: SyncState, now: Ticks, waits: seq<Wait>): (SyncState, Option<Outcome>)
    requires WellFormed(p.storage) && WaitsAllowed(p, waits)
    decreases |waits|
  {
    var (q, answer) := Pass(p, now);
    PassBlocks(p, now);
    if answer.Some? || waits == [] then (q, answer)
    else
      var after := DoAll(p, waits[0].others);
      DoAllIsWellFormed(p, waits[0].others);
      if waits[0].noTimeout then Get(after, waits[0].now, waits[1..])
      else (after, Some(Failed(GetResourceTimeout)))
  }

  // ---------- passes ----------

  function Free(s: StorageState): nat {
    |s.available| + |s.wasted|
  }

  /** A pass has to wait exactly when the pool is open and every cell is in use; it has changed
      nothing then. */
  lemma PassBlocks(p: SyncState, now: Ticks)
    requires WellFormed(p.storage)
    ensures Pass(p, now).1.None? <==> !p.disabled && Free(p.storage) == 0
    ensures Pass(p, now).1.None? ==> Pass(p, now).0 == p
    ensures WellFormed(Pass(p, now).0.storage) && Pass(p, now).0.storage.cells.Keys == p.storage.cells.Keys
  {
    LeaseIsWellFormed(p.storage, now);
    LeaseFailsIffAllUsed(p.storage, now);
  }

  /** The three ends of a pass: a disabled pool answers so, a free cell is leased, and else the thread waits. */
  lemma PassAnswers(p: SyncState, now: Ticks)
    requires WellFormed(p.storage)
    ensures p.disabled ==> Pass(p, now) == (p, Some(Failed(Disabled)))
    ensures !p.disabled && Free(p.storage) > 0 ==>
              var (leased, c) := Lease(p.storage, now);
              c.Some? && Pass(p, now) == (p.(storage := leased), Some(Granted(c.value)))
    ensures !p.disabled && Free(p.storage) == 0 ==> Pass(p, now) == (p, None)
  {
    LeaseFailsIffAllUsed(p.storage, now);
  }

  /** A pass that is granted a cell takes exactly one out of the free ones. */
  lemma PassTakesOne(p: SyncState, now: Ticks)
    requires WellFormed(p.storage) && !p.disabled && Free(p.storage) > 0
    ensures var (q, answer) := Pass(p, now);
            && answer.Some? && answer.value.Granted?
            && Free(q.storage) == Free(p.storage) - 1 && !q.disabled
            && q.storage.used == p.storage.used + [answer.value.cell]
  {
    PassBlocks(p, now);
    LeaseGrants(p.storage, now);
    Sizes(p.storage);
    LeaseIsWellFormed(p.storage, now);
    Sizes(Pass(p, now).0.storage);
  }

  lemma DoIsWellFormed(p: SyncState, a: Act)
    requires WellFormed(p.storage) && MayDo(p, a)
    ensures WellFormed(Do(p, a).storage) && Do(p, a).storage.cells.Keys == p.storage.cells.Keys
  {
    match a
    case DisablePool =>
    case Through(CallLease(now)) => PassBlocks(p, now);
    case Through(CallRecycle(c, now)) => RecycleIsWellFormed(p.storage, c, now);
    case Through(CallWaste(c)) => WasteIsWellFormed(p.storage, c);
    case Through(CallInvalidate) => InvalidateIsWellFormed(p.storage);
    case Through(CallPut(c, v, now)) => PutIsWellFormed(p.storage, c, v, now);
  }

  lemma {:induction false} DoAllIsWellFormed(p: SyncState, acts: seq<Act>)
    requires WellFormed(p.storage) && MayDoAll(p, acts)
    ensures WellFormed(DoAll(p, acts).storage) && DoAll(p, acts).storage.cells.Keys == p.storage.cells.Keys
    decreases |acts|
  {
    if acts != [] {
      DoIsWellFormed(p, acts[0]);
      DoAllIsWellFormed(Do(p, acts[0]), acts[1..]);
    }
  }

  /** One turn of the loop. */
  lemma GetUnfolds(p: SyncState, now: Ticks, waits: seq<Wait>)
    requires WellFormed(p.storage) && WaitsAllowed(p, waits)
    ensures Pass(p, now).1.Some? || waits == [] ==> Get(p, now, waits) == Pass(p, now)
    ensures Pass(p, now).1.None? ==> Pass(p, now).0 == p
    ensures Pass(p, now).1.None? && waits != [] ==>
              && MayDoAll(p, waits[0].others)
              && var after := DoAll(p, waits[0].others);
                 && WellFormed(after.storage) && WaitsAllowed(after, waits[1..])
                 && Get(p, now, waits) == if waits[0].noTimeout then Get(after, waits[0].now, waits[1..])
                                          else (after, Some(Failed(GetResourceTimeout)))
  {
    PassBlocks(p, now);
    if waits != [] {
      DoAllIsWellFormed(p, waits[0].others);
    }
  }

  // ---------- what a whole get answers ----------

  /** The call has to wait in this state. */
  predicate Blocks(p: SyncState) {
    !p.disabled && Free(p.storage) == 0
  }

  lemma {:induction false} WaitsSplit(p: SyncState, waits: seq<Wait>, i: nat)
    requires WaitsAllowed(p, waits) && i <= |waits|
    ensures WaitsAllowed(p, waits[..i])
    decreases |waits|
  {
    if waits != [] && i > 0 {
      WaitsSplit(DoAll(p, waits[0].others), waits[1..], i - 1);
      assert waits[..i][1..] == waits[1..][..i - 1];
    }
  }

  /** The pool as it is when the call makes its pass number i, if it comes to that. */
  function AtPass(p: SyncState, waits: seq<Wait>, i: nat): SyncState
    requires WaitsAllowed(p, waits) && i <= |waits|
  {
    WaitsSplit(p, waits, i);
    AfterWaits(p, waits[..i])
  }

  lemma AtNextPass(p: SyncState, waits: seq<Wait>, i: nat)
    requires WaitsAllowed(p, waits) && 0 < i <= |waits|
    ensures AtPass(p, waits, i) == AtPass(DoAll(p, waits[0].others), waits[1..], i - 1)
  {
    WaitsSplit(p, waits, i);
    WaitsSplit(DoAll(p, waits[0].others), waits[1..], i - 1);
    assert waits[..i][1..] == waits[1..][..i - 1];
  }

  function ClockAt(now: Ticks, waits: seq<Wait>, i: nat): Ticks
    requires i <= |waits|
  {
    if i == 0 then now else waits[i - 1].now
  }

  /** Every pass before number i had to wait, and every such wait ended with no_timeout. */
  ghost predicate Waited(p: SyncState, waits: seq<Wait>, i: nat)
    requires WaitsAllowed(p, waits) && i <= |waits|
  {
    forall j :: 0 <= j < i ==> Blocks(AtPass(p, waits, j)) && waits[j].noTimeout
  }

  /** Pass number i, in the pool the others made, is the last. A disabled pool answers with the disabled
      error; with a cell free, the call leases one; otherwise it has to wait, and either the wait ends with
      a timeout, which is then the answer whatever the others did meanwhile, or there are no more waits. */
  ghost predicate EndsAt(p: SyncState, now: Ticks, waits: seq<Wait>, i: nat, r: (SyncState, Option<Outcome>))
    requires WaitsAllowed(p, waits) && i <= |waits|
  {
    var here := AtPass(p, waits, i);
    if here.disabled then r == (here, Some(Failed(Disabled)))
    else if Free(here.storage) > 0 then
      var (leased, c) := Lease(here.storage, ClockAt(now, waits, i));
      c.Some? && r == (here.(storage := leased), Some(Granted(c.value)))
    else if i < |waits| then !waits[i].noTimeout && r == (AtPass(p, waits, i + 1), Some(Failed(GetResourceTimeout)))
    else r == (here, None)
  }

  lemma WaitedOnce(p: SyncState, waits: seq<Wait>, k: nat)
    requires WaitsAllowed(p, waits) && waits != [] && k < |waits|
    requires Blocks(p) && waits[0].noTimeout
    requires Waited(DoAll(p, waits[0].others), waits[1..], k)
    ensures Waited(p, waits, k + 1)
  {
    forall j | 0 <= j < k + 1 ensures Blocks(AtPass(p, waits, j)) && waits[j].noTimeout {
      if j > 0 {
        AtNextPass(p, waits, j);
        assert waits[1..][j - 1] == waits[j];
      }
    }
  }

  lemma EndsLater(p: SyncState, now: Ticks, waits: seq<Wait>, k: nat, r: (SyncState, Option<Outcome>))
    requires WaitsAllowed(p, waits) && waits != [] && k < |waits|
    requires EndsAt(DoAll(p, waits[0].others), waits[0].now, waits[1..], k, r)
    ensures EndsAt(p, now, waits, k + 1, r)
  {
    AtNextPass(p, waits, k + 1);
    assert ClockAt(now, waits, k + 1) == ClockAt(waits[0].now, waits[1..], k);
    if k + 1 < |waits| {
      AtNextPass(p, waits, k + 2);
      assert waits[1..][k] == waits[k + 1];
    }
  }

  /** get answers at its first chance, and its thread is invisible until then. */
  lemma {:induction false} GetAnswersAtFirstChance(p: SyncState, now: Ticks, waits: seq<Wait>) returns (i: nat)
    requires WellFormed(p.storage) && WaitsAllowed(p, waits)
    ensures i <= |waits| && Waited(p, waits, i) && EndsAt(p, now, waits, i, Get(p, now, waits))
    decreases |waits|
  {
    PassBlocks(p, now);
    PassAnswers(p, now);
    GetUnfolds(p, now, waits);
    if !Blocks(p) || waits == [] {
      i := 0;
    } else if waits[0].noTimeout {
      var after := DoAll(p, waits[0].others);
      var k := GetAnswersAtFirstChance(after, waits[0].now, waits[1..]);
      WaitedOnce(p, waits, k);
      EndsLater(p, now, waits, k, Get(after, waits[0].now, waits[1..]));
      i := k + 1;
    } else {
      i := 0;
      AtNextPass(p, waits, 1);
    }
  }

  /** And that describes one answer only. */
  lemma EndIsUnique(p: SyncState, now: Ticks, waits: seq<Wait>,
                    i: nat, r: (SyncState, Option<Outcome>), i': nat, r': (SyncState, Option<Outcome>))
    requires WaitsAllowed(p, waits) && i <= |waits| && i' <= |waits|
    requires Waited(p, waits, i) && EndsAt(p, now, waits, i, r)
    requires Waited(p, waits, i') && EndsAt(p, now, waits, i', r')
    ensures i == i' && r == r'
  {
  }
}
