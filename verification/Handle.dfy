/** The move-only token for one leased cell. */
module HandleModule {
  import opened Wrappers
  import opened TimeTraits
  import opened StorageSpec
  import opened PoolSpec
  import opened AsyncPool
  import opened HandleSpec

  /** The pool has not been touched. */
  twostate predicate Untouched(p: PoolImpl?)
    reads p, if p == null then {} else {p.storage, p.callbacks}
  {
    p != null ==> unchanged(p) && unchanged(p.storage) && unchanged(p.callbacks)
  }

  class Handle {
    var pool: PoolImpl?
    var strategy: Strategy
    var resourceIt: Option<CellId>

    function View(): HandleState
      reads this
    {
      HandleState(strategy, resourceIt)
    }

    /** The parts of the pool that using the handle may change. */
    ghost function Reach(): set<object>
      reads this
    {
      if pool == null then {} else {pool, pool.storage, pool.callbacks}
    }

    /** A usable handle names a cell that its pool has in use. */
    ghost predicate Valid()
      reads this, pool, Reach()
    {
      resourceIt.Some? ==> pool != null && pool.Valid() && resourceIt.value in pool.storage.used
    }

    constructor Default()
      ensures Valid() && View() == UNUSABLE && pool == null
    {
      pool, strategy, resourceIt := null, UseWaste, None;
    }

    constructor (pool: PoolImpl, strategy: Strategy, cell: CellId)
      requires pool.Valid() && cell in pool.storage.used
      ensures Valid() && View() == HandleState(strategy, Some(cell)) && this.pool == pool
    {
      this.pool, this.strategy, this.resourceIt := pool, strategy, Some(cell);
    }

    /** The move constructor: the cell changes hands, the source becomes unusable. */
    constructor Move(other: Handle)
      requires other.Valid()
      modifies other
      ensures Valid() && other.Valid()
      ensures View() == old(other.View()) && pool == old(other.pool)
      ensures other.View() == old(other.View()).(cell := None) && other.pool == null
    {
      pool, strategy, resourceIt := other.pool, other.strategy, other.resourceIt;
      new;
      other.resourceIt := None;
      other.pool := null;
    }

    predicate Unusable()
      reads this
    {
      resourceIt.None?
    }

    method IsEmpty() returns (b: bool)
      requires Valid()
      ensures b <==> Unusable() || (resourceIt.value in pool.storage.cells && pool.storage.cells[resourceIt.value].value.None?)
    {
      if resourceIt.None? {
        return true;
      }
      InLists(pool.storage.View(), resourceIt.value);
      return pool.storage.cells[resourceIt.value].value.None?;
    }

    /** recycle and waste. `thrown`: the handle was unusable, and nothing happened. */
    method ReleaseAs(how: Strategy, now: Ticks) returns (thrown: bool, posted: Option<Completion>)
      requires Valid()
      modifies this`resourceIt, Reach()
      ensures thrown <==> old(Unusable())
      ensures thrown ==> posted.None? && Untouched(pool)
      ensures !thrown ==>
                && pool != null && pool.Valid()
                && old(resourceIt.value) in old(pool.View()).storage.cells
                && pool.View() == Release(old(pool.View()), how, old(resourceIt.value), now).0
                && posted == Release(old(pool.View()), how, old(resourceIt.value), now).1
                && (forall c :: c in old(pool.storage.used) && c != old(resourceIt.value) ==> c in pool.storage.used)
      ensures Valid() && Unusable()
    {
      if resourceIt.None? {
        return true, None;
      }
      if how == UseRecycle {
        posted := pool.Recycle(resourceIt.value, now);
      } else {
        posted := pool.Waste(resourceIt.value);
      }
      resourceIt := None;
      thrown := false;
    }

    /** The destructor. */
    method Destroy(now: Ticks) returns (posted: Option<Completion>)
      requires Valid()
      modifies this`resourceIt, Reach()
      ensures old(Unusable()) ==> posted.None? && Untouched(pool)
      ensures !old(Unusable()) ==>
                && pool != null && pool.Valid()
                && old(resourceIt.value) in old(pool.View()).storage.cells
                && pool.View() == Release(old(pool.View()), old(strategy), old(resourceIt.value), now).0
                && posted == Release(old(pool.View()), old(strategy), old(resourceIt.value), now).1
                && (forall c :: c in old(pool.storage.used) && c != old(resourceIt.value) ==> c in pool.storage.used)
      ensures Valid() && Unusable()
    {
      if Unusable() {
        return None;
      }
      var thrown;
      thrown, posted := ReleaseAs(strategy, now);
    }

    /** The two handles do not hold the same cell, nor cells of pools that share a part. */
    ghost predicate Apart(other: Handle)
      reads this, other
    {
      this != other && resourceIt.Some? && other.resourceIt.Some? ==>
        if pool == other.pool then resourceIt.value != other.resourceIt.value else Reach() !! other.Reach()
    }

    /** The first part of move assignment: a cell held before goes back, by the handle's own strategy. */
    method LetGo(other: Handle, now: Ticks) returns (posted: Option<Completion>)
      requires Valid() && other.Valid() && Apart(other)
      modifies this`resourceIt, Reach()
      ensures old(Unusable()) ==> posted.None? && Untouched(pool)
      ensures !old(Unusable()) ==>
                && pool != null && pool.Valid()
                && old(resourceIt.value) in old(pool.View()).storage.cells
                && pool.View() == Release(old(pool.View()), old(strategy), old(resourceIt.value), now).0
                && posted == Release(old(pool.View()), old(strategy), old(resourceIt.value), now).1
      ensures Unusable() && other.Valid()
    {
      posted := Destroy(now);
    }

    /** The second: taking over what the other handle holds. */
    method TakeFrom(other: Handle)
      modifies this, other
      ensures this != other ==> View() == old(other.View()) && pool == old(other.pool)
      ensures this == other ==> Unusable()
      ensures other.View() == old(other.View()).(cell := None) && other.pool == null
    {
      pool, strategy, resourceIt := other.pool, other.strategy, other.resourceIt;
      other.resourceIt := None;
      other.pool := null;
    }

    /** Move assignment: a cell held before goes back first, by the handle's own strategy. The
        two handles may be the same one, which then just gives its cell back. */
    method MoveAssign(other: Handle, now: Ticks) returns (posted: Option<Completion>)
      requires Valid() && other.Valid() && Apart(other)
      modifies this, other, Reach()
      ensures old(Unusable()) ==> posted.None? && Untouched(old(pool))
      ensures !old(Unusable()) ==>
                && old(pool) != null && old(pool).Valid()
                && old(resourceIt.value) in old(pool.View()).storage.cells
                && old(pool).View() == Release(old(pool.View()), old(strategy), old(resourceIt.value), now).0
                && posted == Release(old(pool.View()), old(strategy), old(resourceIt.value), now).1
      ensures this != other ==> View() == old(other.View()) && pool == old(other.pool)
      ensures other.Unusable() && Valid()
    {
      posted := LetGo(other, now);
      TakeFrom(other);
    }

    /** Stores a new value in the held cell. `thrown`: the handle was unusable. */
    method Reset(value: Value, now: Ticks) returns (thrown: bool)
      requires Valid()
      modifies Reach()
      ensures thrown <==> Unusable()
      ensures thrown ==> Untouched(pool)
      ensures !thrown ==>
                && pool != null && pool.Valid()
                && resourceIt.value in old(pool.storage.cells)
                && pool.View() == old(pool.View()).(storage := Put(old(pool.storage.View()), resourceIt.value, value, now))
      ensures Valid()
    {
      if resourceIt.None? {
        return true;
      }
      pool.storage.PutValue(resourceIt.value, value, now);
      return false;
    }
  }

  /** What the pool's completion handler passes to the user: a handle to the granted cell, or an
      unusable one with the error. */
  method OnGet(pool: PoolImpl, strategy: Strategy, outcome: Outcome) returns (error: Option<Error>, h: Handle)
    requires pool.Valid() && (outcome.Granted? ==> outcome.cell in pool.storage.used)
    ensures fresh(h) && h.Valid()
    ensures outcome.Granted? ==> error.None? && h.View() == HandleState(strategy, Some(outcome.cell)) && h.pool == pool
    ensures outcome.Failed? ==> error == Some(outcome.error) && h.View() == UNUSABLE
  {
    if outcome.Failed? {
      error := Some(outcome.error);
      h := new Handle.Default();
    } else {
      error := None;
      h := new Handle(pool, strategy, outcome.cell);
    }
  }
}
