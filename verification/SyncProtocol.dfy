/** The synchronous pool at work: threads inside get, cells in their callers' hands, and the
    condition variable between them. One event is one critical section or one decision of the
    condition variable. */
module SyncProtocol {
  import opened Wrappers
  import opened TimeTraits
  import opened Sequences
  import opened StorageSpec
  import opened PoolSpec
  import opened HandleSpec
  import opened SyncSpec

  datatype SyncSystem = SyncSystem(
    pool: SyncState,
    asked: nat,                     // calls of get so far; a call is its number
    waits: WaitSet,
    late: set<CallId>,              // calls whose wait timed out and that do not have the lock yet
    answers: map<CallId, Outcome>,
    held: seq<CellId>)              // cells answered and not given back

  datatype SyncEvent =
    | Enter(at: Ticks)                                    // a new call makes its first pass
    | Again(call: CallId, at: Ticks)                      // a woken call whose wait says no_timeout makes another
    | GiveUp(call: CallId)                                // a call whose wait says timeout answers
    | Lapse(call: CallId)                                 // a sleeping call runs out of time
    | Wake(call: CallId)                                  // a sleeping call wakes for no reason
    | Return(k: nat, how: Strategy, at: Ticks, chosen: Option<CallId>)
    | Store(k: nat, value: Value, at: Ticks)              // a write through the iterator
    | InvalidateAll
    | DisableAll

  function Start(storage: StorageState): SyncSystem {
    SyncSystem(SyncState(storage, false), 0, WaitSet({}, {}), {}, map[], [])
  }

  /** Call r, which is on no list now, makes a pass. */
  function AfterPass(s: SyncSystem, r: CallId, at: Ticks): SyncSystem {
    var (p, answer) := Pass(s.pool, at);
    if answer.None? then s.(pool := p, waits := s.waits.(sleeping := s.waits.sleeping + {r}))
    else s.(pool := p, answers := s.answers[r := answer.value],
            held := if answer.value.Granted? then s.held + [answer.value.cell] else s.held)
  }

  function AfterEnter(s: SyncSystem, at: Ticks): SyncSystem {
    AfterPass(s.(asked := s.asked + 1), s.asked, at)
  }

  function AfterAgain(s: SyncSystem, r: CallId, at: Ticks): SyncSystem {
    AfterPass(s.(waits := s.waits.(woken := s.waits.woken - {r})), r, at)
  }

  function AfterGiveUp(s: SyncSystem, r: CallId): SyncSystem {
    s.(waits := s.waits.(woken := s.waits.woken - {r}), late := s.late - {r},
       answers := s.answers[r := Failed(GetResourceTimeout)])
  }

  function AfterLapse(s: SyncSystem, r: CallId): SyncSystem {
    s.(waits := s.waits.(sleeping := s.waits.sleeping - {r}), late := s.late + {r})
  }

  function GivenBack(s: StorageState, c: CellId, how: Strategy, at: Ticks): StorageState
    requires c in s.cells
  {
    if how == UseRecycle then StorageSpec.Recycle(s, c, at) else StorageSpec.Waste(s, c)
  }

  function AfterReturn(s: SyncSystem, k: nat, how: Strategy, at: Ticks, chosen: Option<CallId>): SyncSystem
    requires k < |s.held| && s.held[k] in s.pool.storage.cells
  {
    s.(pool := s.pool.(storage := GivenBack(s.pool.storage, s.held[k], how, at)),
       waits := NotifyOne(s.waits, chosen), held := Cut(s.held, k))
  }

  /** An event can happen now. That a cell given back is in use is not asked, only that it is one of
      the pool's. */
  predicate Enabled(s: SyncSystem, e: SyncEvent) {
    match e
    case Again(r, _) => r in s.waits.woken
    case GiveUp(r) => r in s.waits.woken || r in s.late
    case Lapse(r) => r in s.waits.sleeping
    case Wake(r) => r in s.waits.sleeping
    case Return(k, _, _, chosen) => k < |s.held| && s.held[k] in s.pool.storage.cells && MayWake(s.waits, chosen)
    case Store(k, _, _) => k < |s.held| && s.held[k] in s.pool.storage.cells
    case _ => true
  }

  function After(s: SyncSystem, e: SyncEvent): SyncSystem
    requires Enabled(s, e)
  {
    match e
    case Enter(at) => AfterEnter(s, at)
    case Again(r, at) => AfterAgain(s, r, at)
    case GiveUp(r) => AfterGiveUp(s, r)
    case Lapse(r) => AfterLapse(s, r)
    case Wake(r) => s.(waits := NotifyOne(s.waits, Some(r)))
    case Return(k, how, at, chosen) => AfterReturn(s, k, how, at, chosen)
    case Store(k, v, at) => s.(pool := s.pool.(storage := Put(s.pool.storage, s.held[k], v, at)))
    case InvalidateAll => s.(pool := s.pool.(storage := StorageSpec.Invalidate(s.pool.storage)))
    case DisableAll => s.(pool := s.pool.(disabled := true), waits := NotifyAll(s.waits))
  }

  predicate CanRun(s: SyncSystem, es: seq<SyncEvent>)
    decreases |es|
  {
    es == [] || (Enabled(s, es[0]) && CanRun(After(s, es[0]), es[1..]))
  }

  function RunAll(s: SyncSystem, es: seq<SyncEvent>): SyncSystem
    requires CanRun(s, es)
    decreases |es|
  {
    if es == [] then s else RunAll(After(s, es[0]), es[1..])
  }

  // ---------- who holds the cells, and where each call is ----------

  /** The cells in use are those in the callers' hands, each once. */
  ghost predicate HeldOnce(s: SyncSystem) {
    WellFormed(s.pool.storage) && multiset(s.held) == multiset(s.pool.storage.used)
  }

  /** Every call so far is in exactly one place: asleep, awake again, late, or answered. */
  ghost predicate Placed(s: SyncSystem) {
    && s.waits.sleeping !! s.waits.woken !! s.late !! s.answers.Keys
    && (forall r: CallId :: r < s.asked <==>
          r in s.waits.sleeping || r in s.waits.woken || r in s.late || r in s.answers)
  }

  lemma PassKeepsHeld(s: SyncSystem, r: CallId, at: Ticks)
    requires HeldOnce(s)
    ensures HeldOnce(AfterPass(s, r, at))
  {
    PassBlocks(s.pool, at);
    if !s.pool.disabled && Free(s.pool.storage) > 0 {
      PassTakesOne(s.pool, at);
    }
  }

  lemma GivenBackIsFree(s: StorageState, c: CellId, how: Strategy, at: Ticks)
    requires WellFormed(s) && c in s.used && c in s.cells
    ensures var t := GivenBack(s, c, how, at);
            && WellFormed(t) && t.cells.Keys == s.cells.Keys
            && t.used == Without(s.used, c) && Free(t) == Free(s) + 1
  {
    RecycleIsWellFormed(s, c, at);
    WasteIsWellFormed(s, c);
  }

  lemma CutWithout<T>(s: seq<T>, k: nat, u: seq<T>)
    requires k < |s| && multiset(s) == multiset(u)
    ensures s[k] in u && multiset(Cut(s, k)) == multiset(Without(u, s[k]))
  {
    assert s[k] in multiset(s);
    assert s == s[..k] + [s[k]] + s[k + 1..];
    assert multiset(Cut(s, k)) == multiset(s) - multiset{s[k]};
    WithoutOne(u, s[k]);
    assert multiset(Without(u, s[k])) == multiset(u) - multiset{s[k]};
  }

  lemma ReturnKeepsHeld(s: SyncSystem, k: nat, how: Strategy, at: Ticks, chosen: Option<CallId>)
    requires HeldOnce(s) && k < |s.held| && s.held[k] in s.pool.storage.cells
    ensures s.held[k] in s.pool.storage.used
    ensures HeldOnce(AfterReturn(s, k, how, at, chosen))
    ensures Free(AfterReturn(s, k, how, at, chosen).pool.storage) == Free(s.pool.storage) + 1
  {
    CutWithout(s.held, k, s.pool.storage.used);
    GivenBackIsFree(s.pool.storage, s.held[k], how, at);
  }

  lemma EventKeepsHeld(s: SyncSystem, e: SyncEvent)
    requires HeldOnce(s) && Enabled(s, e)
    ensures HeldOnce(After(s, e))
  {
    match e
    case Enter(at) => PassKeepsHeld(s.(asked := s.asked + 1), s.asked, at);
    case Again(r, at) => PassKeepsHeld(s.(waits := s.waits.(woken := s.waits.woken - {r})), r, at);
    case Return(k, how, at, chosen) => ReturnKeepsHeld(s, k, how, at, chosen);
    case Store(k, v, at) =>
      assert s.held[k] in multiset(s.held);
      PutIsWellFormed(s.pool.storage, s.held[k], v, at);
    case InvalidateAll => InvalidateIsWellFormed(s.pool.storage);
    case _ =>
  }

  lemma EventKeepsPlaced(s: SyncSystem, e: SyncEvent)
    requires Placed(s) && Enabled(s, e)
    ensures Placed(After(s, e))
    ensures forall r :: r in s.answers ==> r in After(s, e).answers && After(s, e).answers[r] == s.answers[r]
  {
  }

  /** In every run from a new pool, whatever wakes and times out whenever: no cell is in two callers'
      hands or both in somebody's hands and free, every give-back is of a cell in use, and no call is
      lost, answered twice, or answered while it waits. */
  lemma {:induction false} RunKeepsCellsAndCalls(s: SyncSystem, es: seq<SyncEvent>)
    requires HeldOnce(s) && Placed(s) && CanRun(s, es)
    ensures HeldOnce(RunAll(s, es)) && Placed(RunAll(s, es))
    ensures forall r :: r in s.answers ==> r in RunAll(s, es).answers && RunAll(s, es).answers[r] == s.answers[r]
    decreases |es|
  {
    if es != [] {
      EventKeepsHeld(s, es[0]);
      EventKeepsPlaced(s, es[0]);
      RunKeepsCellsAndCalls(After(s, es[0]), es[1..]);
    }
  }

  /** What HeldOnce means for two callers. */
  lemma NoCellInTwoHands(s: SyncSystem, i: nat, j: nat)
    requires HeldOnce(s) && i < j < |s.held|
    ensures s.held[i] != s.held[j] && s.held[i] in s.pool.storage.used
    ensures s.held[i] !in s.pool.storage.available && s.held[i] !in s.pool.storage.wasted
  {
    var c := s.held[i];
    assert c in multiset(s.held);
    InLists(s.pool.storage, c);
    if s.held[j] == c {
      TwiceInMultiset(s.held, i, j);
    }
  }

  // ---------- no lost wakeup ----------

  /** While anybody sleeps, at least as many calls are awake as there are free cells, so no cell lies
      free beside a sleeper without somebody on the way to take it; and nobody sleeps in a disabled pool. */
  ghost predicate NoLostWakeup(s: SyncSystem) {
    s.waits.sleeping != {} ==> !s.pool.disabled && |s.waits.woken| >= Free(s.pool.storage)
  }

  /** A call that was woken answers with a timeout all the same, and leaves too few awake. */
  predicate Loses(s: SyncSystem, e: SyncEvent) {
    && e.GiveUp? && e.call in s.waits.woken
    && s.waits.sleeping != {} && |s.waits.woken| <= Free(s.pool.storage)
  }

  lemma PassKeepsWakeups(s: SyncSystem, r: CallId, at: Ticks)
    requires WellFormed(s.pool.storage)
    requires s.waits.sleeping != {} ==> !s.pool.disabled && |s.waits.woken| + 1 >= Free(s.pool.storage)
    ensures NoLostWakeup(AfterPass(s, r, at))
  {
    PassBlocks(s.pool, at);
    if !s.pool.disabled && Free(s.pool.storage) > 0 {
      PassTakesOne(s.pool, at);
    }
  }

  lemma NotifyCounts(w: WaitSet, chosen: Option<CallId>)
    requires w.sleeping !! w.woken && MayWake(w, chosen)
    ensures w.sleeping != {} ==> |NotifyOne(w, chosen).woken| == |w.woken| + 1
    ensures w.sleeping == {} ==> NotifyOne(w, chosen) == w
  {
  }

  lemma InvalidateFrees(s: StorageState)
    ensures Free(StorageSpec.Invalidate(s)) == Free(s)
  {
  }

  /** One event keeps the promise exactly if it is not such a loss. */
  lemma WakeupKeptIffNotLost(s: SyncSystem, e: SyncEvent)
    requires HeldOnce(s) && Placed(s) && NoLostWakeup(s) && Enabled(s, e)
    ensures NoLostWakeup(After(s, e)) <==> !Loses(s, e)
  {
    match e
    case Enter(at) => PassKeepsWakeups(s.(asked := s.asked + 1), s.asked, at);
    case Again(r, at) =>
      var t := s.(waits := s.waits.(woken := s.waits.woken - {r}));
      assert |t.waits.woken| == |s.waits.woken| - 1;
      PassKeepsWakeups(t, r, at);
    case GiveUp(r) => AwakeAfterGiveUp(s, r);
    case Lapse(r) =>
    case Wake(r) => NotifyCounts(s.waits, Some(r));
    case Return(k, how, at, chosen) =>
      ReturnKeepsHeld(s, k, how, at, chosen);
      NotifyCounts(s.waits, chosen);
    case Store(k, v, at) =>
    case InvalidateAll => InvalidateFrees(s.pool.storage);
    case DisableAll =>
  }

  lemma AwakeAfterGiveUp(s: SyncSystem, r: CallId)
    ensures |AfterGiveUp(s, r).waits.woken| == if r in s.waits.woken then |s.waits.woken| - 1 else |s.waits.woken|
  {
    if r !in s.waits.woken {
      assert s.waits.woken - {r} == s.waits.woken;
    }
  }

  ghost predicate AlwaysPromised(s: SyncSystem, es: seq<SyncEvent>)
    requires CanRun(s, es)
    decreases |es|
  {
    NoLostWakeup(s) && (es == [] || AlwaysPromised(After(s, es[0]), es[1..]))
  }

  ghost predicate NeverLoses(s: SyncSystem, es: seq<SyncEvent>)
    requires CanRun(s, es)
    decreases |es|
  {
    es == [] || (!Loses(s, es[0]) && NeverLoses(After(s, es[0]), es[1..]))
  }

  /** Over a whole run: no wakeup is ever lost exactly if no woken call times out at a moment when
      only it stood between a free cell and a sleeper. Barging, wakeups for no reason, sleepers that
      run out of time, invalidate and disable are all harmless. */
  lemma {:induction false} NoWakeupLostIff(s: SyncSystem, es: seq<SyncEvent>)
    requires HeldOnce(s) && Placed(s) && NoLostWakeup(s) && CanRun(s, es)
    ensures AlwaysPromised(s, es) <==> NeverLoses(s, es)
    decreases |es|
  {
    if es != [] {
      WakeupKeptIffNotLost(s, es[0]);
      if !Loses(s, es[0]) {
        EventKeepsHeld(s, es[0]);
        EventKeepsPlaced(s, es[0]);
        NoWakeupLostIff(After(s, es[0]), es[1..]);
      }
    }
  }

  /** A condition variable that never says timeout to a call it has woken. */
  predicate Punctual(s: SyncSystem, es: seq<SyncEvent>)
    requires CanRun(s, es)
    decreases |es|
  {
    es == [] || ((es[0].GiveUp? ==> es[0].call !in s.waits.woken) && Punctual(After(s, es[0]), es[1..]))
  }

  lemma {:induction false} PunctualNeverLoses(s: SyncSystem, es: seq<SyncEvent>)
    requires CanRun(s, es) && Punctual(s, es)
    ensures NeverLoses(s, es)
    decreases |es|
  {
    if es != [] {
      PunctualNeverLoses(After(s, es[0]), es[1..]);
    }
  }

  lemma {:induction false} PromisedAtTheEnd(s: SyncSystem, es: seq<SyncEvent>)
    requires CanRun(s, es) && AlwaysPromised(s, es)
    ensures NoLostWakeup(RunAll(s, es))
    decreases |es|
  {
    if es != [] {
      PromisedAtTheEnd(After(s, es[0]), es[1..]);
    }
  }

  /** The run es of a new pool ends in s. */
  predicate Reaches(storage: StorageState, es: seq<SyncEvent>, s: SyncSystem) {
    CanRun(Start(storage), es) && s == RunAll(Start(storage), es)
  }

  /** The states a pool can get into with such a condition variable. */
  ghost predicate PunctuallyReachable(s: SyncSystem) {
    exists storage, es ::
      WellFormed(storage) && storage.used == [] && Reaches(storage, es, s) && Punctual(Start(storage), es)
  }

  /** In all of them, a sleeper beside a free cell means that as many calls as there are free cells
      are awake; once they have all had their turn, a sleeper means that every cell is in use. */
  lemma NobodySleepsBesideAFreeCell(s: SyncSystem)
    requires PunctuallyReachable(s) && s.waits.sleeping != {}
    ensures !s.pool.disabled
    ensures |s.waits.woken| >= Free(s.pool.storage)
    ensures s.waits.woken == {} ==> |s.pool.storage.used| == |s.pool.storage.cells|
  {
    var storage, es :|
      WellFormed(storage) && storage.used == [] && Reaches(storage, es, s) && Punctual(Start(storage), es);
    var s0 := Start(storage);
    assert HeldOnce(s0) && Placed(s0) && NoLostWakeup(s0);
    PunctualNeverLoses(s0, es);
    NoWakeupLostIff(s0, es);
    PromisedAtTheEnd(s0, es);
    RunKeepsCellsAndCalls(s0, es);
    Sizes(s.pool.storage);
  }

  lemma RunFirst(s: SyncSystem, e: SyncEvent, es: seq<SyncEvent>)
    requires Enabled(s, e) && CanRun(After(s, e), es)
    ensures CanRun(s, [e] + es) && RunAll(s, [e] + es) == RunAll(After(s, e), es)
  {
    assert ([e] + es)[1..] == es;
  }

  /** One cell: call 0 gets it, and calls 1 and 2 go to sleep. */
  lemma TwoAsleep(s: SyncSystem, t: Ticks)
    requires HeldOnce(s) && Free(s.pool.storage) == 1 && s == Start(s.pool.storage)
    ensures var u := After(After(After(s, Enter(t)), Enter(t)), Enter(t));
            && HeldOnce(u) && Free(u.pool.storage) == 0 && !u.pool.disabled
            && |u.held| == 1 && u.held[0] in u.pool.storage.cells && u.waits == WaitSet({1, 2}, {})
  {
    PassTakesOne(s.pool, t);
    EventKeepsHeld(s, Enter(t));
    var s1 := After(s, Enter(t));
    PassBlocks(s1.pool, t);
    assert s1.held[0] in multiset(s1.held);
    InLists(s1.pool.storage, s1.held[0]);
  }

  /** It does happen. The cell comes back and wakes call 1, whose wait says timeout all the same.
      Call 2 sleeps on beside a free cell, with nobody awake. */
  lemma WokenCallCanLoseItsCell(idleTimeout: Ticks, lifespan: Ticks, t: Ticks) returns (es: seq<SyncEvent>)
    ensures var s := Start(Empty(1, idleTimeout, lifespan));
            && CanRun(s, es)
            && var end := RunAll(s, es);
               && end.waits == WaitSet({2}, {}) && Free(end.pool.storage) == 1 && !end.pool.disabled
               && 1 in end.answers && end.answers[1] == Failed(GetResourceTimeout)
  {
    EmptyIsWellFormed(1, idleTimeout, lifespan);
    var s := Start(Empty(1, idleTimeout, lifespan));
    TwoAsleep(s, t);
    var s1 := After(s, Enter(t));
    var s2 := After(s1, Enter(t));
    var s3 := After(s2, Enter(t));
    var back, late := SyncEvent.Return(0, UseWaste, t, Some(1)), GiveUp(1);
    CellIsLost(s3, t);
    RunFirst(After(s3, back), late, []);
    RunFirst(s3, back, [late] + []);
    RunFirst(s2, Enter(t), [back] + ([late] + []));
    RunFirst(s1, Enter(t), [Enter(t)] + ([back] + ([late] + [])));
    RunFirst(s, Enter(t), [Enter(t)] + ([Enter(t)] + ([back] + ([late] + []))));
    es := [Enter(t)] + ([Enter(t)] + ([Enter(t)] + ([back] + ([late] + []))));
  }

  lemma CellIsLost(s: SyncSystem, t: Ticks)
    requires HeldOnce(s) && Free(s.pool.storage) == 0 && |s.held| == 1 && s.held[0] in s.pool.storage.cells
    requires s.waits == WaitSet({1, 2}, {}) && !s.pool.disabled
    ensures var back := SyncEvent.Return(0, UseWaste, t, Some(1));
            && Enabled(s, back) && Enabled(After(s, back), GiveUp(1))
            && var end := After(After(s, back), GiveUp(1));
               && end.waits == WaitSet({2}, {}) && Free(end.pool.storage) == 1 && !end.pool.disabled
               && 1 in end.answers && end.answers[1] == Failed(GetResourceTimeout)
  {
    ReturnKeepsHeld(s, 0, UseWaste, t, Some(1));
  }

  // ---------- what the wakeups come to ----------

  /** Events in which woken calls, each once, make their next passes. */
  ghost predicate WokenPasses(s: SyncSystem, es: seq<SyncEvent>) {
    && (forall i :: 0 <= i < |es| ==> es[i].Again? && es[i].call in s.waits.woken)
    && (forall i, j :: 0 <= i < j < |es| ==> es[i].call != es[j].call)
  }

  predicate GrantedTo(t: SyncSystem, r: CallId) {
    r in t.answers && t.answers[r].Granted?
  }

  /** The first n of these calls have a cell and the others sleep. */
  ghost predicate Served(t: SyncSystem, es: seq<SyncEvent>, n: nat) {
    forall i :: 0 <= i < |es| ==>
      es[i].Again? && if i < n then GrantedTo(t, es[i].call) else es[i].call in t.waits.sleeping
  }

  ghost predicate Keeps(s: SyncSystem, t: SyncSystem) {
    && (forall r :: r in s.answers ==> r in t.answers && t.answers[r] == s.answers[r])
    && s.waits.sleeping <= t.waits.sleeping
  }

  lemma FirstIsServed(s: SyncSystem, r: CallId, at: Ticks)
    requires HeldOnce(s) && Placed(s) && !s.pool.disabled && r in s.waits.woken
    ensures var u, f := After(s, Again(r, at)), Free(s.pool.storage);
            && HeldOnce(u) && Placed(u) && !u.pool.disabled && Keeps(s, u)
            && u.waits.woken == s.waits.woken - {r}
            && (if f > 0 then GrantedTo(u, r) else r in u.waits.sleeping)
            && Free(u.pool.storage) == if f > 0 then f - 1 else 0
  {
    EventKeepsHeld(s, Again(r, at));
    EventKeepsPlaced(s, Again(r, at));
    PassBlocks(s.pool, at);
    if Free(s.pool.storage) > 0 {
      PassTakesOne(s.pool, at);
    }
  }

  lemma KeepsOn(s: SyncSystem, u: SyncSystem, t: SyncSystem)
    requires Keeps(s, u) && Keeps(u, t)
    ensures Keeps(s, t)
  {
  }

  lemma WokenPassesRest(s: SyncSystem, u: SyncSystem, es: seq<SyncEvent>)
    requires es != [] && WokenPasses(s, es) && u.waits.woken == s.waits.woken - {es[0].call}
    ensures WokenPasses(u, es[1..])
  {
    var rest := es[1..];
    assert forall i :: 0 <= i < |rest| ==> rest[i] == es[i + 1] && rest[i].call != es[0].call;
  }

  lemma ServedNext(t: SyncSystem, es: seq<SyncEvent>, n: nat)
    requires es != [] && es[0].Again?
    requires if n > 0 then GrantedTo(t, es[0].call) else es[0].call in t.waits.sleeping
    requires Served(t, es[1..], if n > 0 then n - 1 else 0)
    ensures Served(t, es, n)
  {
    forall i | 0 <= i < |es|
      ensures es[i].Again? && if i < n then GrantedTo(t, es[i].call) else es[i].call in t.waits.sleeping
    {
      if i > 0 {
        assert es[i] == es[1..][i - 1];
      }
    }
  }

  /** First come, first served, among the woken: with f cells free in an open pool, any woken calls
      can make their passes in any order, at any times; the first f of them are granted a cell and
      the others go back to sleep. */
  lemma {:induction false} WokenAreServedInOrder(s: SyncSystem, es: seq<SyncEvent>)
    requires HeldOnce(s) && Placed(s) && !s.pool.disabled && WokenPasses(s, es)
    ensures CanRun(s, es) && Keeps(s, RunAll(s, es))
    ensures Served(RunAll(s, es), es, Free(s.pool.storage))
    decreases |es|
  {
    if es != [] {
      var u := After(s, es[0]);
      FirstIsServed(s, es[0].call, es[0].at);
      WokenPassesRest(s, u, es);
      WokenAreServedInOrder(u, es[1..]);
      var t := RunAll(u, es[1..]);
      KeepsOn(s, u, t);
      ServedNext(t, es, Free(s.pool.storage));
    }
  }

  // ---------- a disabled pool ----------

  /** Every state a pool can get into, whatever the condition variable says. */
  ghost predicate Reachable(s: SyncSystem) {
    exists storage, es :: WellFormed(storage) && storage.used == [] && Reaches(storage, es, s)
  }

  ghost predicate AllAwake(s: SyncSystem) {
    s.pool.disabled ==> s.waits.sleeping == {}
  }

  lemma {:induction false} RunKeepsAwake(s: SyncSystem, es: seq<SyncEvent>)
    requires AllAwake(s) && CanRun(s, es)
    ensures AllAwake(RunAll(s, es))
    decreases |es|
  {
    if es != [] {
      assert AllAwake(After(s, es[0]));
      RunKeepsAwake(After(s, es[0]), es[1..]);
    }
  }

  lemma EventInDisabledPool(s: SyncSystem, e: SyncEvent)
    requires s.pool.disabled && s.waits.sleeping == {} && Enabled(s, e)
    ensures var t := After(s, e);
            && t.pool.disabled && t.waits.sleeping == {}
            && (forall r :: r in t.answers ==> t.answers[r].Failed? || (r in s.answers && t.answers[r] == s.answers[r]))
            && multiset(t.held) <= multiset(s.held)
  {
    match e
    case Return(k, how, at, chosen) =>
      assert s.held == s.held[..k] + [s.held[k]] + s.held[k + 1..];
      assert multiset(s.held) == multiset(Cut(s.held, k)) + multiset{s.held[k]};
    case _ =>
  }

  lemma {:induction false} RunsStayDisabled(s: SyncSystem, es: seq<SyncEvent>)
    requires s.pool.disabled && s.waits.sleeping == {} && CanRun(s, es)
    ensures var t := RunAll(s, es);
            && t.pool.disabled && t.waits.sleeping == {}
            && (forall r :: r in t.answers ==> t.answers[r].Failed? || (r in s.answers && t.answers[r] == s.answers[r]))
            && multiset(t.held) <= multiset(s.held)
    decreases |es|
  {
    if es != [] {
      EventInDisabledPool(s, es[0]);
      RunsStayDisabled(After(s, es[0]), es[1..]);
    }
  }

  /** A pool that has been disabled, however it got there, stays disabled: it grants nothing more, and
      nobody sleeps in it. */
  lemma DisabledForGood(s: SyncSystem, es: seq<SyncEvent>)
    requires Reachable(s) && s.pool.disabled && CanRun(s, es)
    ensures RunAll(s, es).pool.disabled && RunAll(s, es).waits.sleeping == {}
    ensures forall r :: r in RunAll(s, es).answers ==>
              RunAll(s, es).answers[r].Failed? || (r in s.answers && RunAll(s, es).answers[r] == s.answers[r])
    ensures multiset(RunAll(s, es).held) <= multiset(s.held)
  {
    var storage, before :| WellFormed(storage) && storage.used == [] && Reaches(storage, before, s);
    RunKeepsAwake(Start(storage), before);
    RunsStayDisabled(s, es);
  }

  // ---------- what each call is answered ----------

  /** Call r, which makes a pass in s, is answered so in t, or sleeps. */
  ghost predicate PassAnswered(s: SyncSystem, r: CallId, at: Ticks, t: SyncSystem) {
    && (s.pool.disabled ==>
          t.answers == s.answers[r := Failed(Disabled)] && t.pool == s.pool && t.held == s.held)
    && (!s.pool.disabled && Free(s.pool.storage) > 0 ==>
          var (leased, c) := Lease(s.pool.storage, at);
          && c.Some? && t.answers == s.answers[r := Granted(c.value)]
          && t.pool == s.pool.(storage := leased) && t.held == s.held + [c.value])
    && (!s.pool.disabled && Free(s.pool.storage) == 0 ==>
          t.answers == s.answers && t.pool == s.pool && t.held == s.held && r in t.waits.sleeping)
  }

  /** Which events answer whom, and with what. Only a disabled pool refuses, only a call whose wait has run
      out is told so, and no other event answers anybody. */
  lemma EventAnswers(s: SyncSystem, e: SyncEvent)
    requires HeldOnce(s) && Enabled(s, e)
    ensures e.Enter? ==> PassAnswered(s, s.asked, e.at, After(s, e))
    ensures e.Again? ==> PassAnswered(s, e.call, e.at, After(s, e))
    ensures e.GiveUp? ==>
              && After(s, e).answers == s.answers[e.call := Failed(GetResourceTimeout)]
              && After(s, e).pool == s.pool && After(s, e).held == s.held
    ensures !e.Enter? && !e.Again? && !e.GiveUp? ==> After(s, e).answers == s.answers
  {
    if e.Enter? || e.Again? {
      PassAnswers(s.pool, e.at);
    }
  }

  /** What has led to an answer. */
  ghost predicate HasCause(s: SyncSystem, r: CallId)
    requires r in s.answers
  {
    && (s.answers[r] == Failed(Disabled) ==> s.pool.disabled)
    && s.answers[r] != Failed(RequestQueueOverflow)
  }

  lemma EventKeepsCauses(s: SyncSystem, e: SyncEvent)
    requires HeldOnce(s) && Enabled(s, e) && forall r :: r in s.answers ==> HasCause(s, r)
    ensures forall r :: r in After(s, e).answers ==> HasCause(After(s, e), r)
  {
    EventAnswers(s, e);
    DisabledStays(s, e);
    var t := After(s, e);
    forall r | r in t.answers ensures HasCause(t, r) {
      if r in s.answers && t.answers[r] == s.answers[r] {
        assert HasCause(s, r);
      }
    }
  }

  lemma DisabledStays(s: SyncSystem, e: SyncEvent)
    requires Enabled(s, e)
    ensures s.pool.disabled ==> After(s, e).pool.disabled
  {
  }

  lemma {:induction false} RunsKeepCauses(s: SyncSystem, es: seq<SyncEvent>)
    requires HeldOnce(s) && CanRun(s, es) && forall r :: r in s.answers ==> HasCause(s, r)
    ensures HeldOnce(RunAll(s, es)) && forall r :: r in RunAll(s, es).answers ==> HasCause(RunAll(s, es), r)
    decreases |es|
  {
    if es != [] {
      EventKeepsHeld(s, es[0]);
      EventKeepsCauses(s, es[0]);
      RunsKeepCauses(After(s, es[0]), es[1..]);
    }
  }

  predicate MakesPass(s: SyncSystem, e: SyncEvent, r: CallId) {
    (e.Enter? && r == s.asked) || (e.Again? && r == e.call)
  }

  /** In every reachable state a call has been told that the pool is disabled only if it is, and whoever makes a
      pass in a disabled pool is told so; a call that is answered now is granted a cell of an open pool,
      or refused by a disabled one, by its own pass, or told of a timeout when its own wait ends so. */
  lemma EveryAnswerHasItsCause(s: SyncSystem, e: SyncEvent)
    requires Reachable(s) && Enabled(s, e)
    ensures forall r :: r in s.answers ==> HasCause(s, r)
    ensures s.pool.disabled && e.Enter? ==> After(s, e).answers == s.answers[s.asked := Failed(Disabled)]
    ensures s.pool.disabled && e.Again? ==> After(s, e).answers == s.answers[e.call := Failed(Disabled)]
    ensures forall r :: r in After(s, e).answers && r !in s.answers ==>
              match After(s, e).answers[r]
              case Granted(c) =>
                !s.pool.disabled && (c in s.pool.storage.available || c in s.pool.storage.wasted)
                && MakesPass(s, e, r)
              case Failed(Disabled) => s.pool.disabled && MakesPass(s, e, r)
              case Failed(GetResourceTimeout) => e == GiveUp(r)
              case Failed(RequestQueueOverflow) => false
  {
    var storage, es :| WellFormed(storage) && storage.used == [] && Reaches(storage, es, s);
    RunsKeepCauses(Start(storage), es);
    EventAnswers(s, e);
    if (e.Enter? || e.Again?) && !s.pool.disabled && Free(s.pool.storage) > 0 {
      LeaseGrants(s.pool.storage, e.at);
      InLists(s.pool.storage, Lease(s.pool.storage, e.at).1.value);
    }
  }

  // ---------- what one thread does, as another one waiting sees it ----------

  /** What an event does to the pool, as an act of another thread. */
  function ActOf(s: SyncSystem, e: SyncEvent): Option<Act>
    requires Enabled(s, e)
  {
    match e
    case Enter(at) => Some(Through(CallLease(at)))
    case Again(_, at) => Some(Through(CallLease(at)))
    case Return(k, how, at, _) =>
      Some(Through(if how == UseRecycle then CallRecycle(s.held[k], at) else CallWaste(s.held[k])))
    case Store(k, v, at) => Some(Through(CallPut(s.held[k], v, at)))
    case InvalidateAll => Some(Through(CallInvalidate))
    case DisableAll => Some(DisablePool)
    case _ => None
  }

  /** The acts that a call of get waits through are the events of the other threads. */
  lemma EventsAreActs(s: SyncSystem, e: SyncEvent)
    requires HeldOnce(s) && Enabled(s, e)
    ensures ActOf(s, e).None? ==> After(s, e).pool == s.pool
    ensures ActOf(s, e).Some? ==> MayDo(s.pool, ActOf(s, e).value) && After(s, e).pool == Do(s.pool, ActOf(s, e).value)
  {
    if e.Return? || e.Store? {
      assert s.held[e.k] in multiset(s.held);
    }
  }
}
