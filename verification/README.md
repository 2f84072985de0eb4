# resource_pool: a verified model

A model in Dafny of Yandex's `resource_pool`: a bounded pool of reusable resources with an
asynchronous front (completion handlers, a request queue with timeouts) and a synchronous one (a
condition variable). Check it with `dafny verify dfyconfig.toml`.

## What is modelled

**Cells.** A pool owns a fixed number of cells. Each cell is a list node in one of three lists
(`available`, `used`, `wasted`), and its iterator is what a lease gives out. The model names a cell
by that iterator. `StorageModule.Storage` splices three sequences of names over a table of cell
records; `StorageSpec` says what each operation does to the whole state.

**Requests.** A request that finds nothing to lease waits in a list in order of arrival and, at the
same time, in a multimap ordered by deadline; nodes are reused through a free list, and each `io_context`
has a timer. `QueueModule.Queue` keeps these structures; `QueueSpec` is the queue they stand for: one
sequence of waiters with deadlines, plus the timers. The ghost `ticket` of a waiter counts pushes
and decides between equal deadlines.

**The asynchronous pool.** `AsyncPool.PoolImpl` is a storage and a queue with the hand-off: a cell that
comes back while somebody waits goes straight to the first waiter, without passing through the storage.
`HandleModule.Handle` is the move-only token for a leased cell. `Protocol` puts the pool together
with its surroundings: calls of `get`, posted handlers that have not run, every handle ever made, timers,
a clock, and a history. One event is one critical section or one step of an executor. A call of `get`
is two events, because it drops the pool's lock before it pushes its request; `disable` is one event for each turn
of its loop, because the queue has a lock of its own.

**The synchronous pool.** `SyncPool.SyncPoolImpl` uses the same storage. Its `get` is a loop of passes
between waits; what other threads do during a wait, and how the wait ends, are arguments. `SyncProtocol`
is the whole system: threads asleep, awake and late, and cells in callers' hands.

**Time.** A time point or duration is a signed 64-bit tick count (`TimeTraits.Ticks`), so every
addition in the model is checked for overflow. Clock readings are parameters; a run's clock
never goes back. A timer wait succeeds only at or after the timer's expiry, and may be late; `expires_at`
aborts the waits pending on that timer.

## Main results

- *Ownership* (`Ownership.EveryUsedCellHasOneHolder`): in every run, with `get` divided, each cell in
  use has exactly one holder, a usable handle or a handler not yet run, and every holder's cell is in
  use. So no `recycle` or `waste` ever splices a cell that is not in `used`.
- *Completion* (`Completions.EveryRequestIsAnsweredOnce`): each request is in exactly one place, and is
  answered at most once, for good.
- *Answers* (`Answers.EveryAnswerHasItsCause`, `SyncProtocol.EveryAnswerHasItsCause`): in every run the disabled error
  comes only out of a disabled pool, the overflow error goes only to requests that would wait and never got into the
  queue, and the timeout error only to those that would not wait and those that were queued.
- *Values* (`Recirculation.RecycledValueComesBack`): what a holder leaves in a cell that it recycles is what the next
  lease of the cell brings, exactly as long as neither its idle time nor its life has run out; and cells are leased in
  the order in which they were given back (`StorageLaws.RecycledIsLeasedLast`,
  `Recirculation.AvailableInReturnOrder`).
- *Timeouts* (`Timeouts.TimeoutsAreTimely`, `Timeouts.ExpirationsAreBounded`): whoever waits, a timer
  is set for the earliest deadline; nobody is timed out early, not even by a stale wait; and without new
  pushes timers expire waiters no more often than there are waiters.
- *Grants* (`Grants.EveryGrantIsCurrent`, `Invalidation.SyncGrantsAreCurrent`): no value stored before an
  invalidation, past its lifespan, or idle for too long is handed out after that moment.
- *Fairness* (`Fairness.NobodyWaitsInVainOrOvertakes`): with an undivided `get` nobody waits beside a
  free cell or in a disabled pool, and cells go out in the order they were asked for.
- *The divided get.* With the `get` of the code all three fail, by concrete runs
  (`Counterexamples.DividedGetCanStrandAWaiter`, `Counterexamples.DividedGetCanWaitInADisabledPool`,
  `Counterexamples.DividedGetCanGrantOutOfOrder`). Over every run, the first holds at all times if and only if no
  request is ever pushed, with room in the queue, at a moment when a cell is free
  (`Divided.NobodyStrandedIff`); the second if and only if none is pushed into a disabled and drained pool
  (`Divided.NobodyTrappedIff`); and the grants are in the order of the calls if and only if no cell is ever given
  back while the first waiter is older than some request already granted one (`Divided.GrantsInOrderIff`). For a
  caller: the first two hold throughout if no cell comes back to an empty
  queue, and nobody disables the pool, between the two parts of a `get`
  (`Divided.UndisturbedGetsWaitForACell`). The whole line, which is those granted, then those queued, then
  those on their way to the queue, is in the order of the calls if and only if no request is leased a cell while
  an older one is queued or on its way, or pushed while an older one is on its way (`Divided.NobodyOvertakesIff`). And
  whatever the interleaving, hand-offs serve the waiters in the order in which they were pushed
  (`Divided.HandOffsInPushOrder`).
- *Progress* (`Progress.EveryRequestCanBeAnswered`): from every reachable state of the divided system some
  continuation of pushes, timers and handlers alone, with no cell given back, answers every request and runs its
  handler. So no request can be stuck.
- *Hand-off* (`PoolSpec.HandOffAgreesWithStorage`): the short cut agrees with recycling and leasing
  at once exactly if the cell is invalid or empty or the idle timeout is positive;
  `Counterexamples.HandOffCanDisagree` is a run in which it does not. The hand-off does not lower the cell's
  `waste_on_recycle` flag, which is up exactly if the pool has been invalidated since the call of `get` that leased
  the cell, through however many hands it has gone since (`Validity.UsedMeansLeased`). So a value, old or new, is kept
  on recycling if and only if there was no such invalidation and its life is not over
  (`Validity.ValueKeptIff`); in `Counterexamples.HandOffCanLoseANewValue` a new one is destroyed. The documentation (README.md
  lines 157-164 and 290-297) promises only that used handles are wasted on return.
- *Wakeups* (`SyncProtocol.NoWakeupLostIff`): in the synchronous pool, while anybody sleeps at least as
  many calls are awake as there are free cells, exactly as long as no woken call answers with a
  timeout while only it stands between a free cell and a sleeper. `std::condition_variable::wait_for`
  may answer so; `SyncProtocol.WokenCallCanLoseItsCell` is a run in which it does.

## Model

| member | source | states |
|---|---|---|
| TimeTraits.Add | include/yamail/resource_pool/time_traits.hpp:20-32 | The branches compute the exact sum clamped to the 64-bit range, and no intermediate value overflows. |
| TimeTraits.AddIsMonotone | include/yamail/resource_pool/time_traits.hpp:20-32 | A later start or a longer duration never gives an earlier deadline. |
| TimeTraits.MinOfDeadlines | include/yamail/resource_pool/detail/storage.hpp:129-133 | The earlier of two saturated deadlines is the saturation of the earlier exact one. |
| StorageModule.Storage.WithCapacity | include/yamail/resource_pool/detail/storage.hpp:64-69 | The new storage has the given number of cells, all wasted and empty. |
| StorageModule.Storage.WithValues | include/yamail/resource_pool/detail/storage.hpp:71-91 | The loop leaves one available cell per value, in order, all with the earlier of the two deadlines. |
| StorageSpec.EmptyIsWellFormed | include/yamail/resource_pool/detail/storage.hpp:64-69 | The storage invariant holds of a new storage: as many wasted cells as asked for, each with an empty, unflagged record. |
| StorageSpec.FilledIsWellFormed | include/yamail/resource_pool/detail/storage.hpp:71-91 | And of one made from values: the available cells hold them in order, stored now, with the clamped earlier of the two exact deadlines. |
| StorageModule.Storage.DropExpired | include/yamail/resource_pool/detail/storage.hpp:105-113 | The loop of lease ends and moves exactly the expired prefix, in order and emptied, behind the wasted cells. |
| StorageModule.Storage.Lease | include/yamail/resource_pool/detail/storage.hpp:102-121 | The new state and the result are those of the lease specification, whose meaning the next lemmas give. |
| StorageSpec.LeaseOrder | include/yamail/resource_pool/detail/storage.hpp:102-121 | Which cell a lease takes: the first unexpired available one, else the front of the wasted list after the sweep. |
| StorageSpec.LeaseFailsIffAllUsed | include/yamail/resource_pool/detail/storage.hpp:102-121 | A lease fails exactly when all cells are in use, and then changes nothing. |
| StorageSpec.LeaseGrants | include/yamail/resource_pool/detail/storage.hpp:102-121 | A granted cell was free, is in use now and unflagged, and is unexpired and unchanged if it has a value; cells in use are untouched. |
| StorageSpec.LeaseIsWellFormed | include/yamail/resource_pool/detail/storage.hpp:102-121 | A lease keeps the storage invariant and the set of cells. |
| StorageLaws.LeaseAvailableRecords | include/yamail/resource_pool/detail/storage.hpp:105-113 | A lease of an available cell hands it out with its record as it was, value and all; exactly the expired cells before it are emptied, and no other record changes. |
| StorageLaws.LeaseWastedRecords | include/yamail/resource_pool/detail/storage.hpp:102-121 | A lease of a wasted cell lowers its flag and gives it without a value; all available cells are emptied, and no other record changes. |
| StorageModule.Storage.Recycle | include/yamail/resource_pool/detail/storage.hpp:123-135 | For a cell in use, the whole new state: available with a new deadline, or wasted if flagged or past its life. |
| StorageSpec.RecycleDeadline | include/yamail/resource_pool/detail/storage.hpp:123-135 | A recycled cell becomes available exactly if unflagged and its exact life end is ahead; its deadline is the clamped earlier of the two exact ones; otherwise it is wasted. |
| StorageSpec.RecycleIsWellFormed | include/yamail/resource_pool/detail/storage.hpp:123-135 | recycle keeps the storage invariant and the set of cells. |
| StorageLaws.RecycleRecords | include/yamail/resource_pool/detail/storage.hpp:123-135 | recycle changes the record of its cell only, and of that only the value and the deadline. |
| StorageLaws.RecycledIsLeasedLast | include/yamail/resource_pool/detail/storage.hpp:123-135 | A recycled cell stands behind all available ones: later leases take those first, then it, and when it has run out it is wasted behind them; no other cell moves. |
| StorageLaws.RecycledAreLeasedInOrder | include/yamail/resource_pool/detail/storage.hpp:123-135 | Two cells recycled one after the other are leased in that order, behind what was available. |
| Recirculation.AvailableInReturnOrder | include/yamail/resource_pool/detail/storage.hpp:134 | In every reachable state the available cells stand in the order in which they were given back. |
| Recirculation.AvailableIsLeftAlone | include/yamail/resource_pool/detail/storage.hpp:102-165 | No event changes the record of a cell while it is available. |
| Recirculation.RecycledValueComesBack | include/yamail/resource_pool/detail/storage.hpp:102-135 | In every run: the value in a cell when it is recycled is what the next lease of it brings, if and only if neither the idle timeout since the return nor the life of the value is over by then; otherwise the lease brings none. |
| StorageModule.Storage.Waste | include/yamail/resource_pool/detail/storage.hpp:137-141 | For a cell in use, the whole new state: emptied and at the end of the wasted list. |
| StorageSpec.WasteIsWellFormed | include/yamail/resource_pool/detail/storage.hpp:137-141 | waste keeps the storage invariant and the set of cells. |
| StorageLaws.WasteRecords | include/yamail/resource_pool/detail/storage.hpp:137-141 | waste destroys the value of its cell and changes nothing else in any record. |
| StorageLaws.WastedIsLeasedInTurn | include/yamail/resource_pool/detail/storage.hpp:137-141 | A wasted cell stands behind the wasted ones and is leased after them, and before cells that run out later. |
| StorageModule.Storage.IsValid | include/yamail/resource_pool/detail/storage.hpp:143-154 | True exactly for an unflagged cell whose life end is ahead; nothing changes. |
| StorageModule.Storage.Invalidate | include/yamail/resource_pool/detail/storage.hpp:156-165 | Both loops and the splice: available cells end up emptied behind the wasted ones, cells in use flagged. |
| StorageSpec.InvalidateIsWellFormed | include/yamail/resource_pool/detail/storage.hpp:156-165 | invalidate keeps the storage invariant and the set of cells. |
| StorageLaws.InvalidateRecords | include/yamail/resource_pool/detail/storage.hpp:156-165 | invalidate empties exactly the available cells, flags exactly those in use, and changes no other record. |
| StorageLaws.InvalidatedAreLeasedEmpty | include/yamail/resource_pool/detail/storage.hpp:156-165 | After it all free cells are wasted, the ones wasted before first, and a lease brings no value. |
| StorageModule.Storage.Stats | include/yamail/resource_pool/detail/storage.hpp:93-100 | The three counts, which add up to the capacity. |
| StorageModule.Storage.PutValue | include/yamail/resource_pool/handle.hpp:115-120 | The write a handle makes through its iterator changes that cell's value and reset time only. |
| StorageLaws.PutRecords | include/yamail/resource_pool/handle.hpp:115-120 | The write sets the value and the reset time of its cell, leaves the flag and the deadline, and touches no other record and no list. |
| StorageModule.Storage.ResetCell | include/yamail/resource_pool/async/detail/pool_impl.hpp:309-311 | Destroying the value through the iterator changes nothing else and keeps the invariant. |
| StorageLaws.ClearRecords | include/yamail/resource_pool/async/detail/pool_impl.hpp:309-311 | Destroying a value through the iterator leaves the rest of the record, all other records and all lists. |
| StorageSpec.CallsConserveCells | include/yamail/resource_pool/detail/storage.hpp:102-165 | Over any sequence of calls the three lists stay disjoint, hold exactly the original cells, wasted cells stay empty, and available cells unflagged with a deadline within their life. |
| QueueModule.Queue.constructor | include/yamail/resource_pool/async/detail/queue.hpp:72 | A new queue is empty and its structures agree. |
| QueueModule.Queue.Size | include/yamail/resource_pool/async/detail/queue.hpp:120-124 | The size of the multimap is the number of waiters. |
| QueueModule.Queue.IsEmpty | include/yamail/resource_pool/async/detail/queue.hpp:126-130 | Emptiness of the order list is emptiness of the multimap and of the queue. |
| QueueModule.Queue.GetTimer | include/yamail/resource_pool/async/detail/queue.hpp:211-218 | The timer of a context is kept if there is one and made otherwise; other timers are untouched. |
| QueueModule.Queue.UpdateTimer | include/yamail/resource_pool/async/detail/queue.hpp:191-209 | The multimap's first entry is the earliest waiter in arrival order among equals; its context's timer gets its deadline, and the new wait captures it. |
| QueueModule.Queue.TakeNode | include/yamail/resource_pool/async/detail/queue.hpp:144-147 | The node used is never live, comes from the free list if that has one, and live and free nodes stay within the capacity. |
| QueueModule.Queue.Link | include/yamail/resource_pool/async/detail/queue.hpp:148-154 | The given node becomes live with the given waiter, at the end of the order list and behind its equals in the multimap; both iterators lead back to it and the structures agree again. |
| QueueModule.Queue.Push | include/yamail/resource_pool/async/detail/queue.hpp:138-157 | The linked structures behave as one sequence: a full queue refuses and is unchanged, otherwise the waiter is appended with its saturated deadline. |
| QueueModule.Queue.Pop | include/yamail/resource_pool/async/detail/queue.hpp:159-172 | The first waiter in order of arrival leaves both structures and is returned; nothing happens to an empty queue. |
| QueueModule.Queue.ExpireFirst | include/yamail/resource_pool/async/detail/queue.hpp:182-187 | The loop of cancel posts the first entries of the multimap in their order and takes exactly those waiters out of both structures. |
| QueueModule.Queue.Cancel | include/yamail/resource_pool/async/detail/queue.hpp:174-189 | The linked structures behave as the cancel of the queue specification; an aborted wait changes nothing. |
| QueueModule.RearrangedIsByDeadline | include/yamail/resource_pool/async/detail/queue.hpp:180-188 | The agreement of the two structures determines the multimap's order: deadline first, arrival second. |
| QueueSpec.CancelTimesOutTheDue | include/yamail/resource_pool/async/detail/queue.hpp:174-189 | Exactly the waiters due by the captured deadline are timed out, by deadline and then arrival; the others keep their places, and a wait is armed for them. |
| QueueSpec.ByDeadlineKeepsOrder | include/yamail/resource_pool/async/detail/queue.hpp:154 | Inserting behind equal keys in order of arrival sorts by deadline and then by arrival. |
| QueueSpec.EarliestIsFirst | include/yamail/resource_pool/async/detail/queue.hpp:199-201 | The waiter the timer is set for is before every other waiter. |
| QueueSpec.UpdateTimerArms | include/yamail/resource_pool/async/detail/queue.hpp:191-209 | Afterwards the earliest waiter's context has exactly one pending wait, for that waiter's deadline; the other timers are as they were, and with no waiters there are none. |
| QueueSpec.PushKeepsInv | include/yamail/resource_pool/async/detail/queue.hpp:138-157 | push keeps the queue invariant, succeeds exactly below capacity, and arms the timer. |
| QueueSpec.PopKeepsInv | include/yamail/resource_pool/async/detail/queue.hpp:159-172 | pop keeps the queue invariant and re-arms the timer. |
| QueueSpec.ArmedWaitMakesProgress | include/yamail/resource_pool/async/detail/queue.hpp:174-209 | When a wait reaches the earliest deadline the queue shrinks, and whoever is left is due later. |
| AsyncPool.PoolImpl.GetBegin | include/yamail/resource_pool/async/detail/pool_impl.hpp:333-363 | The first part of get: disabled, leased, refused for not waiting, or on to the queue, with the whole new state. |
| AsyncPool.PoolImpl.GetPush | include/yamail/resource_pool/async/detail/pool_impl.hpp:364-374 | The rest of get: queued, or overflow. |
| Answers.CallAnswersOrLeaves | include/yamail/resource_pool/async/detail/pool_impl.hpp:333-363 | A call of get is answered at once with the disabled error in a disabled pool, with the leased cell if one is free, and with the timeout error if none is and the request does not wait; in the remaining case it is on its way to the queue, unanswered. |
| Answers.EnqueueQueuesOrRefuses | include/yamail/resource_pool/async/detail/pool_impl.hpp:364-374 | With room in the queue the request is appended to it with its deadline; without, it is answered with the overflow error and the queue is as it was. |
| Answers.EveryAnswerHasItsCause | include/yamail/resource_pool/async/detail/pool_impl.hpp:328-391 | In every reachable state: answers are in the io context asked for; the overflow error has gone only to requests that would wait and were never queued, the disabled error only out of a disabled pool, the timeout error only to requests that would not wait or that were queued; and no request that would not wait is queued or on its way to it. |
| AsyncPool.PoolImpl.Recycle | include/yamail/resource_pool/async/detail/pool_impl.hpp:299-313 | With a waiter the cell goes to the first one and loses its value if invalid; without one it goes to the storage; the invariants of both hold after. |
| AsyncPool.PoolImpl.Waste | include/yamail/resource_pool/async/detail/pool_impl.hpp:315-326 | The same for waste: the first waiter gets the emptied cell, or the storage does. |
| Answers.ReturnServesOrStores | include/yamail/resource_pool/async/detail/pool_impl.hpp:299-326 | A cell given back goes to the first waiter, with nothing else in the storage changed, or to the storage; wasted, it has no value either way; recycled and handed on, it has its value exactly if that is valid. |
| AsyncPool.PoolImpl.Disable | include/yamail/resource_pool/async/detail/pool_impl.hpp:376-391 | The loop ends; every waiter is dispatched once, in order of arrival, with the disabled error; the queue is empty after. |
| Answers.DrainFailsFirst | include/yamail/resource_pool/async/detail/pool_impl.hpp:380-390 | Each turn of the loop fails the first waiter, in its io context, with the disabled error, and dispatches it. |
| Fairness.DisableIsDisable | include/yamail/resource_pool/async/detail/pool_impl.hpp:376-391 | The turns of the drain, with nothing in between, leave the pool and the answers that the loop of disable does. |
| AsyncPool.PoolImpl.Invalidate | include/yamail/resource_pool/async/detail/pool_impl.hpp:393-397 | Only the storage is invalidated; waiters stay. |
| AsyncPool.PoolImpl.OnTimer | include/yamail/resource_pool/async/detail/queue.hpp:174-189 | A completed wait posts the timeout error to exactly those the queue times out, in its order. |
| Answers.TimerHandlerFailsTheDue | include/yamail/resource_pool/async/detail/queue.hpp:174-189 | The handler of a wait for a deadline takes exactly the waiters due by it off the queue and posts each the timeout error, by deadline and then by arrival. |
| AsyncPool.PoolImpl.Stats | include/yamail/resource_pool/async/detail/pool_impl.hpp:285-297 | The counts of the state; size leaves out the wasted cells. |
| PoolSpec.HandOffAgreesWithStorage | include/yamail/resource_pool/async/detail/pool_impl.hpp:299-313 | With nothing to lease, the waiter gets the cell recycle-then-lease would give, and the same value if and only if the cell is invalid, or empty, or the idle timeout is positive; the states differ only in the used list's order and that cell's deadline and flag. |
| PoolSpec.WasteHandOffAgreesWithStorage | include/yamail/resource_pool/async/detail/pool_impl.hpp:315-326 | The same for waste, where the values always agree. |
| PoolSpec.ValueStoredAfterHandOff | include/yamail/resource_pool/async/detail/pool_impl.hpp:307-312 | A value stored after any hand-off survives the next recycle if and only if no invalidation had flagged the cell and its life is not over. |
| PoolSpec.ValueStoredAfterLease | include/yamail/resource_pool/detail/storage.hpp:102-121 | A value stored after a lease survives the next recycle if and only if its life is not over: a lease leaves no flag. |
| Validity.UsedMeansLeased | include/yamail/resource_pool/detail/storage.hpp:102-165 | In every run, a cell in use was leased by some call of get and has been out since, and its flag is up if and only if the pool was invalidated after that call. |
| Validity.ValueKeptIff | include/yamail/resource_pool/async/detail/pool_impl.hpp:299-313 | In every run, the value of a cell is kept when its holder recycles it, to the storage or to a waiter, if and only if the pool was not invalidated since the lease, through all holders, and the value's life is not over. |
| Counterexamples.HandOffCanLoseANewValue | include/yamail/resource_pool/async/detail/pool_impl.hpp:299-313 | A concrete run in which a value stored after the last invalidation, and within its life, is destroyed by recycle, because the cell was flagged and came by a hand-off. |
| Counterexamples.HandOffCanDisagree | include/yamail/resource_pool/async/detail/pool_impl.hpp:299-313 | A concrete run with idle timeout zero in which a waiter is handed a value that recycle-then-lease would have destroyed. |
| LateReset.LeaseCommutes | include/yamail/resource_pool/async/detail/pool_impl.hpp:307-311 | A lease by another thread between the unlock and the late reset takes the same cell and leaves the same state as after it. |
| LateReset.LateResetCommutes | include/yamail/resource_pool/async/detail/pool_impl.hpp:307-311 | So for any sequence of calls by others, each of which is as legal: resetting the value outside the lock is as good as under it. |
| HandleModule.Handle.Default | include/yamail/resource_pool/handle.hpp:22 | A default handle is unusable. |
| HandleModule.Handle.constructor | include/yamail/resource_pool/handle.hpp:26-31 | The handle holds the given cell, which is in use, with the given strategy. |
| HandleModule.Handle.Move | include/yamail/resource_pool/handle.hpp:60-67 | The cell and strategy pass over; the source is unusable. |
| HandleModule.Handle.IsEmpty | include/yamail/resource_pool/handle.hpp:38-39 | Empty exactly if unusable or its cell has no value. |
| HandleModule.Handle.ReleaseAs | include/yamail/resource_pool/handle.hpp:101-113 | A usable handle gives its cell back, recycled or wasted as asked, with the whole new state of the pool and what it posts, and is unusable after; an unusable one throws and touches nothing. |
| HandleModule.Handle.Destroy | include/yamail/resource_pool/handle.hpp:69-74 | The destructor gives the cell back by the handle's own strategy, with the whole new state of the pool, and does nothing if unusable. |
| HandleModule.Handle.LetGo | include/yamail/resource_pool/handle.hpp:78-80 | The same as the first part of an assignment: the other handle stays valid. |
| HandleModule.Handle.MoveAssign | include/yamail/resource_pool/handle.hpp:76-87 | The cell held before goes back once, by the old strategy, with the whole new state of its pool, then the other handle's cell passes over; assigning a handle to itself just gives its cell back. |
| HandleModule.Handle.Reset | include/yamail/resource_pool/handle.hpp:115-120 | A usable handle's cell gets the value and the time, and nothing else changes; an unusable one throws. |
| HandleModule.OnGet | include/yamail/resource_pool/async/pool.hpp:146-152 | A granted cell becomes a usable handle to it; an error comes with an unusable handle. |
| Answers.HandlerGetsHandle | include/yamail/resource_pool/async/pool.hpp:146-152 | In the runs, a handler that runs gets a handle to the cell it was granted, with the strategy asked for, or an unusable one. |
| Ownership.EventKeepsOwned | include/yamail/resource_pool/async/detail/pool_impl.hpp:299-397 | Any event, in any interleaving, keeps used cells and holders in balance. |
| Ownership.EveryUsedCellHasOneHolder | include/yamail/resource_pool/handle.hpp:60-113 | In every reachable state, with get divided: a cell in use has exactly one holder, a handle or a handler not yet run, and holders hold only cells in use. |
| Ownership.OnlyItsHandleChangesACell | include/yamail/resource_pool/async/detail/pool_impl.hpp:299-397 | No event but one through its handle touches a cell in use, other than an invalidation's flag; so what a waiter was granted is what its handler finds. |
| Completions.EventKeepsAccounted | include/yamail/resource_pool/async/detail/pool_impl.hpp:328-391 | Any event keeps every request in exactly one place. |
| Completions.EveryRequestIsAnsweredOnce | include/yamail/resource_pool/async/detail/pool_impl.hpp:328-391 | In every run, with get divided: each request is on its way, queued, or answered, never two of these; no request is answered twice; answers stay, and each is either run or still to run. |
| Completions.AllAnsweredWhenIdle | include/yamail/resource_pool/async/detail/pool_impl.hpp:328-391 | With nothing on its way or queued, every request has its answer. |
| Completions.DisabledRefusesNewRequests | include/yamail/resource_pool/async/detail/pool_impl.hpp:333-343 | In every run after the pool was disabled, each request made from then on is answered, and with the disabled error. |
| Protocol.AbortedIsQuiet | include/yamail/resource_pool/async/detail/queue.hpp:174-177 | The handler of an aborted wait leaves the whole system as it was. |
| Timeouts.EventKeepsTimers | include/yamail/resource_pool/async/detail/queue.hpp:138-218 | Any event, stale and aborted waits included, keeps a wait set for the earliest deadline. |
| Timeouts.TimeoutsAreTimely | include/yamail/resource_pool/async/detail/queue.hpp:138-218 | In every run: the queue stays within its capacity, a timer covers the earliest deadline, and no request is failed with the timeout error before its own saturated deadline. |
| Timeouts.ExpirationsAreBounded | include/yamail/resource_pool/async/detail/queue.hpp:174-209 | Without pushes, expirations plus the waiters left never exceed the waiters there were. |
| Progress.EveryRequestCanBeAnswered | include/yamail/resource_pool/async/detail/queue.hpp:138-209 | From every reachable state some continuation of pushes, timers and handlers alone leaves nobody on the way, queued or pending, with the handler of every request run. |
| Grants.EventKeepsCurrent | include/yamail/resource_pool/detail/storage.hpp:102-165 | Any event keeps old values out of available cells and flagged in used ones, and deadlines within the idle timeout of the return. |
| Grants.EveryGrantIsCurrent | include/yamail/resource_pool/async/detail/pool_impl.hpp:299-354 | In every run, a value that goes with a grant was stored after the last invalidation, is within its lifespan, and if leased from the available cells within its idle time. |
| Fairness.StepsAreARun | include/yamail/resource_pool/async/detail/pool_impl.hpp:328-374 | A run with an undivided get is a run of the divided one, so everything proved of those holds. |
| Fairness.GetStepIsGet | include/yamail/resource_pool/async/detail/pool_impl.hpp:328-374 | The undivided get of the runs has the state and the answer of the whole call. |
| Fairness.NobodyWaitsInVainOrOvertakes | include/yamail/resource_pool/async/detail/pool_impl.hpp:299-391 | With an undivided get, in every reachable state: a waiter means all cells are in use, a disabled and drained pool has no waiters, and grants happened in the order of the calls of get. |
| Divided.OnlyEnqueueStrands | include/yamail/resource_pool/async/detail/pool_impl.hpp:299-397 | With the divided get, no event but the push can leave a waiter beside a free cell or in a disabled pool. |
| Divided.NobodyStrandedIff | include/yamail/resource_pool/async/detail/pool_impl.hpp:354-368 | Over every run: at all times all cells are in use while anybody waits, if and only if no request is ever pushed, with room in the queue, while a cell is free. A cell being given back counts as free once its return has found no waiter. |
| Divided.NobodyTrappedIff | include/yamail/resource_pool/async/detail/pool_impl.hpp:354-391 | Over every run: at no time anybody waits in a disabled and drained pool, if and only if no request is ever pushed, with room in the queue, into one. |
| Divided.UndisturbedGetsWaitForACell | include/yamail/resource_pool/async/detail/pool_impl.hpp:299-391 | Both hold throughout every run in which no cell comes back to an empty queue, and the pool is not disabled, between the two parts of any get. |
| Divided.GrantsInOrderIff | include/yamail/resource_pool/async/detail/pool_impl.hpp:299-374 | Over every run: at all times cells have been granted in the order of the calls, if and only if no cell is ever given back while the first waiter is older than some request already granted one. |
| Divided.NobodyOvertakesIff | include/yamail/resource_pool/async/detail/pool_impl.hpp:299-374 | Over every run, of the whole line: at all times those granted, those queued and those on their way are in the order of the calls, if and only if no request is leased a cell while an older one is queued or on its way, or pushed while an older one is on its way. |
| Divided.GrantsAreLeasesOrHandOffs | include/yamail/resource_pool/async/detail/pool_impl.hpp:299-354 | Every grant is a lease to the request being made, or a hand-off to the first waiter of the queue. |
| Divided.HandOffsInPushOrder | include/yamail/resource_pool/async/detail/pool_impl.hpp:299-326 | In every run, however the gets are divided, the waiters served by hand-offs, followed by those still waiting, are in the order in which they were pushed. |
| Counterexamples.DividedGetCanStrandAWaiter | include/yamail/resource_pool/async/detail/pool_impl.hpp:354-365 | A concrete run that leaves a waiter queued while the only cell is free. |
| Counterexamples.DividedGetCanWaitInADisabledPool | include/yamail/resource_pool/async/detail/pool_impl.hpp:354-365 | A concrete run that leaves a waiter queued in a disabled and drained pool. |
| Counterexamples.DividedGetCanBeOvertaken | include/yamail/resource_pool/async/detail/pool_impl.hpp:344-365 | A concrete run in which a request is granted the only cell and an older one waits. |
| Counterexamples.DividedGetCanGrantOutOfOrder | include/yamail/resource_pool/async/detail/pool_impl.hpp:344-365 | That run continued: the older request is granted the cell after the younger one. |
| SyncPool.SyncPoolImpl.TryOnce | include/yamail/resource_pool/sync/detail/pool_impl.hpp:141-148 | One turn of the loop before the wait: disabled comes first, then the lease, with the whole new state. |
| SyncPool.SyncPoolImpl.WaitFor | include/yamail/resource_pool/sync/detail/pool_impl.hpp:163-166 | For a wait given by what the others do and how it ends: the others act in that order while the thread sleeps, the result is that end, and the thread is off the condition variable after. |
| SyncPool.SyncPoolImpl.Get | include/yamail/resource_pool/sync/detail/pool_impl.hpp:137-155 | The loop over any finite history of waits gives the answer and the state of the specification, described by the next two lemmas; the thread is asleep exactly if it has no answer. |
| SyncSpec.GetAnswersAtFirstChance | include/yamail/resource_pool/sync/detail/pool_impl.hpp:137-155 | get is invisible until it answers, in the first pass in which the pool is disabled or has a free cell, or with a timeout after the first wait that says so, whatever came free meanwhile. |
| SyncSpec.EndIsUnique | include/yamail/resource_pool/sync/detail/pool_impl.hpp:137-155 | That description fits one answer and one final state only. |
| SyncSpec.PassBlocks | include/yamail/resource_pool/sync/detail/pool_impl.hpp:141-149 | A pass has to wait exactly when the pool is open and all cells are in use, and has then changed nothing. |
| SyncSpec.PassAnswers | include/yamail/resource_pool/sync/detail/pool_impl.hpp:141-149 | A pass in a disabled pool answers with the disabled error and changes nothing; with a cell free it leases one; otherwise it has to wait. |
| SyncSpec.PassTakesOne | include/yamail/resource_pool/sync/detail/pool_impl.hpp:145-148 | A pass that is granted a cell takes exactly one of the free ones. |
| SyncPool.SyncPoolImpl.Recycle | include/yamail/resource_pool/sync/detail/pool_impl.hpp:116-121 | The storage recycles the cell and one sleeper, if any, is woken. |
| SyncPool.SyncPoolImpl.Waste | include/yamail/resource_pool/sync/detail/pool_impl.hpp:123-128 | The same for waste. |
| SyncPool.SyncPoolImpl.Disable | include/yamail/resource_pool/sync/detail/pool_impl.hpp:130-135 | The pool is disabled and every sleeper woken. |
| SyncPool.SyncPoolImpl.Invalidate | include/yamail/resource_pool/sync/detail/pool_impl.hpp:157-161 | Only the storage is invalidated; nobody is woken. |
| SyncPool.SyncPoolImpl.Stats | include/yamail/resource_pool/sync/detail/pool_impl.hpp:103-114 | The counts; size leaves out the wasted cells. |
| SyncProtocol.RunKeepsCellsAndCalls | include/yamail/resource_pool/sync/detail/pool_impl.hpp:116-166 | In every run the cells in use are those in callers' hands, each once, and each call is asleep, awake, late or answered, never two of these; answers stay. |
| SyncProtocol.NoCellInTwoHands | include/yamail/resource_pool/sync/detail/pool_impl.hpp:116-148 | What that means: two callers never hold the same cell, and a held cell is not free. |
| SyncProtocol.EventAnswers | include/yamail/resource_pool/sync/detail/pool_impl.hpp:137-155 | Which events answer which call, and with what, in every case; no other event answers anybody. |
| SyncProtocol.EveryAnswerHasItsCause | include/yamail/resource_pool/sync/detail/pool_impl.hpp:137-155 | In every reachable state the disabled error has been given only in a disabled pool, where every pass is answered with it; a call is granted a free cell of an open pool by its own pass, and told of a timeout only when its own wait ends so. |
| SyncProtocol.EventsAreActs | include/yamail/resource_pool/sync/detail/pool_impl.hpp:116-166 | What the other threads do while one waits is what the events of the runs do. |
| SyncProtocol.WakeupKeptIffNotLost | include/yamail/resource_pool/sync/detail/pool_impl.hpp:116-166 | One event keeps as many calls awake as there are free cells, while anybody sleeps, if and only if it is not a woken call giving up with too few others awake. |
| SyncProtocol.NoWakeupLostIff | include/yamail/resource_pool/sync/detail/pool_impl.hpp:116-166 | The same over whole runs, through barging, spurious wakeups, timeouts of sleepers, invalidate and disable. |
| SyncProtocol.NobodySleepsBesideAFreeCell | include/yamail/resource_pool/sync/detail/pool_impl.hpp:116-166 | If a notified waiter always returns no_timeout: in every reachable state a sleeper means an open pool with enough calls awake, and all cells in use once those have run. |
| SyncProtocol.WokenCallCanLoseItsCell | include/yamail/resource_pool/sync/detail/pool_impl.hpp:149-152 | A concrete run in which a woken call times out and another sleeps on beside the free cell. |
| SyncProtocol.WokenAreServedInOrder | include/yamail/resource_pool/sync/detail/pool_impl.hpp:140-155 | With f cells free, any woken calls can make their passes in any order and at any times; the first f to get the lock are granted a cell and the others sleep again. |
| SyncProtocol.DisabledForGood | include/yamail/resource_pool/sync/detail/pool_impl.hpp:130-144 | In every run, once the pool is disabled nobody sleeps in it, it stays disabled, and it grants nothing. |
| Invalidation.InvalidatedValuesNeverComeBack | include/yamail/resource_pool/detail/storage.hpp:102-165 | After an invalidation and any sequence of calls, a lease brings a value only if one of these calls stored it in that cell. |
| Invalidation.RunMakesCalls | include/yamail/resource_pool/sync/detail/pool_impl.hpp:116-161 | A run of the synchronous pool is a legal sequence of calls of its storage. |
| Invalidation.SyncGrantsAreCurrent | include/yamail/resource_pool/sync/detail/pool_impl.hpp:137-161 | In every run, a call granted a cell after an invalidation finds in it no value that was not stored there since, nor one past its life. |

## Left out

- Boost.Asio: executors, strands, coroutines and completion tokens. A posted handler is an element of a pending list that may run at any time and in any order; a timer is its expiry and its pending waits.
- `dispatch` running a handler inline while `disable` holds the pool's lock (async/detail/pool_impl.hpp:385): the handler is pending, like a posted one.
- The wrappers that erase handler types, and moving and copying handlers: a request is its number.
- The tail of recycle and waste outside the lock is part of the same event in `Protocol`; `LateReset` shows that the reset may come later, but a handler posted later than other events is not modelled.
- A handle gives its cell back in one event; in the code it keeps its iterator until the call of the pool has returned (handle.hpp:104-105).
- recycle and waste take the pool's lock and, inside it, the queue's; the model takes both at once. What may come between, a push or a timer, touches the queue only, and what follows touches the storage only, so the outcome is that of the return first and the push or timer after it. In that order the cell is already free when the push comes, where in the code it is about to be: a waiter pushed between the empty pop and the splice (async/detail/pool_impl.hpp:302-304) is left beside a free cell just the same.
- `Value`: values are opaque, with no destructor effects and no exceptions; allocation failures, exceptions in user code, and object lifetimes through `shared_ptr` and `weak_ptr`.
- Weak memory: every critical section is one step, and clock readings inside it are one reading.
- List nodes and multimap nodes are named by numbers instead of living on the heap, so that the aliasing between iterators is a matter of equal names. The order in which cells stand in `used` is modelled but nothing depends on it.
- QueueModule.Queue.Unlink: states what leaves the queue and that the structures agree, not the order of the free list, which nothing depends on.
- SyncPool.SyncPoolImpl.WaitFor: a thread that waits does so through a given, finite list of waits, because the wait starts anew after each wakeup and no bound follows from the code; so termination of the synchronous get is not claimed, and the wait duration is not a parameter.
- SyncPool.SyncPoolImpl.Perform: the sleep of other threads is not recorded while one thread waits; `SyncProtocol` has all threads.
- `sync::pool::get_handle`, which makes a handle from a default iterator on errors: the synchronous side is modelled at the level of its `pool_impl`.
- Error messages, the check for zero capacity, and trivial getters: easy members.
