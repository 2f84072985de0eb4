/** The whole asynchronous pool at work: callers of get, handlers waiting to run, handles, timers,
    and a clock. One event is one critical section or one step of the executor; a call of get is
    two events, because it drops the pool's lock before it queues its request. */
module Protocol {
  import opened Wrappers
  import opened TimeTraits
  import opened Sequences
  import opened StorageSpec
  import opened QueueSpec
  import opened PoolSpec
  import opened HandleSpec

  /** The arguments of one call of get. */
  datatype Ask = Ask(ctx: IoContext, wait: Ticks, strategy: Strategy)

  datatype System = System(
    pool: PoolState,
    draining: bool,                // disable is under way: it has the pool's lock and empties the queue
    now: Ticks,
    asked: seq<Ask>,               // the calls of get so far; a request is its place here
    leaving: seq<RequestId>,       // requests past the pool's lock and not pushed yet
    pending: seq<Completion>,      // handlers given to an io context that have not run yet
    handles: seq<HandleState>,     // every handle ever made
    ready: seq<Ticks>,             // captured deadlines of timer waits whose handlers are about to run
    // history
    log: seq<Completion>,          // every completion ever posted or dispatched, in order
    ran: seq<Completion>,          // those whose handlers have run
    epoch: nat,                    // invalidations so far
    birth: map<CellId, nat>,       // the epoch in which a cell's value was stored
    returned: map<CellId, Ticks>,  // when a cell was last given back, or created
    pushedAt: map<RequestId, Ticks>)

  datatype Event =
    | Call(ask: Ask, at: Ticks)                     // get, under the pool's lock
    | Enqueue(k: nat, at: Ticks)                    // the rest of a get
    | Run(k: nat)                                   // a pending handler runs
    | Return(h: nat, how: Strategy, at: Ticks)      // handle.recycle() or handle.waste()
    | Destroy(h: nat, at: Ticks)
    | MoveOut(h: nat)                               // move construction from h
    | Assign(h: nat, from: nat, at: Ticks)          // move assignment to h
    | Store(h: nat, value: Value, at: Ticks)        // handle.reset(value)
    | InvalidateAll
    | DisableAll                                    // disable takes the lock
    | DrainOne                                      // one turn of its loop
    | Fire(ctx: IoContext, at: Ticks)               // a timer expires
    | TimerHandler(k: nat, at: Ticks)               // the handler of a wait that succeeded
    | AbortedHandler(deadline: Ticks)               // the handler of a wait that was aborted

  /** How a pool is made: with empty cells, or with values from a generator or a range. */
  datatype Stock = Bare(capacity: nat) | Stocked(values: seq<Value>)

  function Start(stock: Stock, queueCapacity: nat, idleTimeout: Ticks, lifespan: Ticks, now: Ticks): System {
    var storage := match stock
      case Bare(n) => Empty(n, idleTimeout, lifespan)
      case Stocked(vs) => Filled(vs, idleTimeout, lifespan, now);
    System(PoolState(storage, QueueState(queueCapacity, [], 0, map[]), false), false, now,
           [], [], [], [], [], [], [], 0,
           map c | c in storage.cells :: 0, map c | c in storage.cells :: now, map[])
  }

  // ---------- events ----------

  function Emit(s: System, cs: seq<Completion>): System {
    s.(pending := s.pending + cs, log := s.log + cs)
  }

  function Given(c: Option<Completion>): seq<Completion> {
    if c.Some? then [c.value] else []
  }

  function AfterCall(s: System, ask: Ask, at: Ticks): System {
    var r := |s.asked|;
    var (p, c) := GetBegin(s.pool, r, ask.ctx, ask.wait, at);
    Emit(s.(pool := p, now := at, asked := s.asked + [ask], leaving := if c.Some? then s.leaving else s.leaving + [r]),
         Given(c))
  }

  function AfterEnqueue(s: System, k: nat, at: Ticks): System
    requires k < |s.leaving| && s.leaving[k] < |s.asked|
  {
    var r := s.leaving[k];
    var (p, c) := GetPush(s.pool, r, s.asked[r].ctx, s.asked[r].wait, at);
    Emit(s.(pool := p, now := at, leaving := Cut(s.leaving, k),
            pushedAt := if c.Some? then s.pushedAt else s.pushedAt[r := at]),
         Given(c))
  }

  /** What the user's handler is called with. */
  function HandleFor(s: System, c: Completion): HandleState
    requires c.request < |s.asked|
  {
    if c.outcome.Granted? then HandleState(s.asked[c.request].strategy, Some(c.outcome.cell)) else UNUSABLE
  }

  function AfterRun(s: System, k: nat): System
    requires k < |s.pending| && s.pending[k].request < |s.asked|
  {
    s.(pending := Cut(s.pending, k), ran := s.ran + [s.pending[k]], handles := s.handles + [HandleFor(s, s.pending[k])])
  }

  /** recycle and waste throw for an unusable handle and change nothing. */
  function AfterReturn(s: System, h: nat, how: Strategy, at: Ticks): System
    requires h < |s.handles| && (s.handles[h].cell.Some? ==> s.handles[h].cell.value in s.pool.storage.cells)
  {
    if s.handles[h].cell.None? then s.(now := at)
    else
      var c := s.handles[h].cell.value;
      var (p, w) := Release(s.pool, how, c, at);
      Emit(s.(pool := p, now := at, handles := s.handles[h := s.handles[h].(cell := None)], returned := s.returned[c := at]),
           Given(w))
  }

  function AfterMoveOut(s: System, h: nat): System
    requires h < |s.handles|
  {
    s.(handles := s.handles[h := s.handles[h].(cell := None)] + [s.handles[h]])
  }

  function AfterAssign(s: System, h: nat, from: nat, at: Ticks): System
    requires h < |s.handles| && from < |s.handles|
    requires s.handles[h].cell.Some? ==> s.handles[h].cell.value in s.pool.storage.cells
  {
    var t := AfterReturn(s, h, s.handles[h].strategy, at);
    if h == from then t
    else t.(handles := t.handles[h := t.handles[from]][from := t.handles[from].(cell := None)])
  }

  function AfterStore(s: System, h: nat, v: Value, at: Ticks): System
    requires h < |s.handles| && (s.handles[h].cell.Some? ==> s.handles[h].cell.value in s.pool.storage.cells)
  {
    if s.handles[h].cell.None? then s.(now := at)
    else
      var c := s.handles[h].cell.value;
      s.(pool := s.pool.(storage := Put(s.pool.storage, c, v, at)), now := at, birth := s.birth[c := s.epoch])
  }

  function AfterInvalidate(s: System): System {
    s.(pool := PoolSpec.Invalidate(s.pool), epoch := s.epoch + 1)
  }

  function AfterDisable(s: System): System {
    s.(pool := s.pool.(disabled := true), draining := true)
  }

  function Refused(w: Waiter): Completion {
    Completion(w.request, w.ctx, Failed(Disabled), Dispatch)
  }

  /** The queue has a lock of its own, so timers and pushes may come between two turns. */
  function AfterDrainOne(s: System): System {
    var (q, w) := Pop(s.pool.queue);
    if w.None? then s.(draining := false)
    else Emit(s.(pool := s.pool.(queue := q)), [Refused(w.value)])
  }

  function AfterFire(s: System, ctx: IoContext, at: Ticks): System
    requires ctx in s.pool.queue.timers
  {
    var timer := s.pool.queue.timers[ctx];
    s.(pool := s.pool.(queue := s.pool.queue.(timers := s.pool.queue.timers[ctx := timer.(waits := [])])),
       now := at, ready := s.ready + timer.waits)
  }

  function AfterTimerHandler(s: System, k: nat, at: Ticks): System
    requires k < |s.ready|
  {
    var (p, cs) := Expire(s.pool, false, s.ready[k]);
    Emit(s.(pool := p, now := at, ready := Cut(s.ready, k)), cs)
  }

  function AfterAborted(s: System, deadline: Ticks): System {
    var (p, cs) := Expire(s.pool, true, deadline);
    Emit(s.(pool := p), cs)
  }

  /** An event can happen now. A handle's cell is asked to be one of the pool's, no more: that it
      is in use, and held by nothing else, is for the invariants to say. */
  predicate Enabled(s: System, e: Event) {
    match e
    case Call(_, at) => at >= s.now && !s.draining
    case Enqueue(k, at) => at >= s.now && k < |s.leaving| && s.leaving[k] < |s.asked|
    case Run(k) => k < |s.pending| && s.pending[k].request < |s.asked|
    case Return(h, _, at) => at >= s.now && InPool(s, h) && MayReturn(s, h)
    case Destroy(h, at) => at >= s.now && InPool(s, h) && MayReturn(s, h)
    case MoveOut(h) => h < |s.handles|
    case Assign(h, from, at) => at >= s.now && InPool(s, h) && MayReturn(s, h) && from < |s.handles|
    case Store(h, _, at) => at >= s.now && InPool(s, h)
    case InvalidateAll => !s.draining
    case DisableAll => !s.draining
    case DrainOne => s.draining
    case Fire(ctx, at) =>
      && at >= s.now && ctx in s.pool.queue.timers
      && s.pool.queue.timers[ctx].waits != [] && at >= s.pool.queue.timers[ctx].expiry
    case TimerHandler(k, at) => at >= s.now && k < |s.ready|
    case AbortedHandler(_) => true
  }

  predicate InPool(s: System, h: nat) {
    h < |s.handles| && (s.handles[h].cell.Some? ==> s.handles[h].cell.value in s.pool.storage.cells)
  }

  /** Giving a cell back takes the pool's lock; an unusable handle does not get that far. */
  predicate MayReturn(s: System, h: nat)
    requires h < |s.handles|
  {
    s.handles[h].cell.Some? ==> !s.draining
  }

  function After(s: System, e: Event): System
    requires Enabled(s, e)
  {
    match e
    case Call(ask, at) => AfterCall(s, ask, at)
    case Enqueue(k, at) => AfterEnqueue(s, k, at)
    case Run(k) => AfterRun(s, k)
    case Return(h, how, at) => AfterReturn(s, h, how, at)
    case Destroy(h, at) => AfterReturn(s, h, s.handles[h].strategy, at)
    case MoveOut(h) => AfterMoveOut(s, h)
    case Assign(h, from, at) => AfterAssign(s, h, from, at)
    case Store(h, v, at) => AfterStore(s, h, v, at)
    case InvalidateAll => AfterInvalidate(s)
    case DisableAll => AfterDisable(s)
    case DrainOne => AfterDrainOne(s)
    case Fire(ctx, at) => AfterFire(s, ctx, at)
    case TimerHandler(k, at) => AfterTimerHandler(s, k, at)
    case AbortedHandler(d) => AfterAborted(s, d)
  }

  // ---------- runs ----------

  predicate CanRun(s: System, es: seq<Event>)
    decreases |es|
  {
    es == [] || (Enabled(s, es[0]) && CanRun(After(s, es[0]), es[1..]))
  }

  function RunAll(s: System, es: seq<Event>): System
    requires CanRun(s, es)
    decreases |es|
  {
    if es == [] then s else RunAll(After(s, es[0]), es[1..])
  }

  /** The run es of a new pool ends in s. */
  predicate Reaches(stock: Stock, queueCapacity: nat, idle: Ticks, life: Ticks, now: Ticks, es: seq<Event>, s: System) {
    var start := Start(stock, queueCapacity, idle, life, now);
    CanRun(start, es) && s == RunAll(start, es)
  }

  /** The states a pool can get into, of whatever capacities and settings. */
  ghost predicate Reachable(s: System) {
    exists stock, queueCapacity, idle, life, now, es :: Reaches(stock, queueCapacity, idle, life, now, es, s)
  }

  /** Event e can happen in s and leads to t. */
  predicate Leads(s: System, e: Event, t: System) {
    Enabled(s, e) && t == After(s, e)
  }

  // ---------- what events leave alone ----------

  /** The event is not part of a get, does not give a cell back, and takes nobody off the queue. */
  predicate IsQuiet(e: Event) {
    e.Run? || e.MoveOut? || e.Store? || e.InvalidateAll? || e.DisableAll? || e.Fire? || e.AbortedHandler?
  }

  /** Nothing but cells, handles, timers and the clock may differ. */
  predicate SameGets(s: System, t: System) {
    && t.log == s.log && t.pool.queue.waiters == s.pool.queue.waiters && t.pool.queue.nextTicket == s.pool.queue.nextTicket
    && t.leaving == s.leaving && t.asked == s.asked && t.pushedAt == s.pushedAt && t.now >= s.now
  }

  lemma QuietEvent(s: System, e: Event)
    requires Enabled(s, e) && IsQuiet(e)
    ensures SameGets(s, After(s, e))
    ensures After(s, e).draining == (s.draining || e.DisableAll?)
    ensures After(s, e).pool.disabled == (s.pool.disabled || e.DisableAll?)
  {
    match e
    case AbortedHandler(d) => AbortedIsQuiet(s, d);
    case Store(h, v, at) => StoreIsQuiet(s, h, v, at);
    case Fire(ctx, at) => FireIsQuiet(s, ctx, at);
    case _ =>
  }

  /** The handler of an aborted wait changes nothing. */
  lemma AbortedIsQuiet(s: System, deadline: Ticks)
    ensures AfterAborted(s, deadline) == s
  {
    assert s.log + [] == s.log && s.pending + [] == s.pending;
  }

  lemma StoreIsQuiet(s: System, h: nat, v: Value, at: Ticks)
    requires InPool(s, h) && at >= s.now
    ensures SameGets(s, AfterStore(s, h, v, at))
    ensures AfterStore(s, h, v, at).draining == s.draining && AfterStore(s, h, v, at).pool.disabled == s.pool.disabled
  {
  }

  lemma FireIsQuiet(s: System, ctx: IoContext, at: Ticks)
    requires ctx in s.pool.queue.timers && at >= s.now
    ensures SameGets(s, AfterFire(s, ctx, at))
    ensures AfterFire(s, ctx, at).draining == s.draining && AfterFire(s, ctx, at).pool.disabled == s.pool.disabled
  {
  }

  /** The event has nothing to do with cells and their values. */
  predicate SparesStorage(e: Event) {
    || e.Enqueue? || e.Run? || e.MoveOut? || e.DisableAll? || e.DrainOne?
    || e.Fire? || e.TimerHandler? || e.AbortedHandler?
  }

  lemma StorageSpared(s: System, e: Event)
    requires Enabled(s, e) && SparesStorage(e)
    ensures var t := After(s, e);
            && t.pool.storage == s.pool.storage
            && t.birth == s.birth && t.returned == s.returned && t.epoch == s.epoch
  {
  }

  /** Cells are granted by a call of get and by giving one back. */
  lemma OthersGrantNothing(s: System, e: Event)
    requires Enabled(s, e) && !e.Call? && !e.Return? && !e.Destroy? && !e.Assign?
    ensures forall i :: |s.log| <= i < |After(s, e).log| ==> After(s, e).log[i].outcome.Failed?
  {
  }
}
