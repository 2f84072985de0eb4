/** The cell allocator: three lists spliced in place over a heap of cell records. */
module StorageModule {
  import opened Wrappers
  import opened TimeTraits
  import opened Sequences
  import opened StorageSpec

  class Storage {
    const idleTimeout: Ticks
    const lifespan: Ticks
    var available: seq<CellId>
    var used: seq<CellId>
    var wasted: seq<CellId>
    var cells: map<CellId, Idle>

    function View(): StorageState
      reads this
    {
      StorageState(idleTimeout, lifespan, available, used, wasted, cells)
    }

    ghost predicate Valid()
      reads this
    {
      WellFormed(View())
    }

    constructor WithCapacity(capacity: nat, idleTimeout: Ticks, lifespan: Ticks)
      ensures Valid() && View() == Empty(capacity, idleTimeout, lifespan)
    {
      this.idleTimeout, this.lifespan := idleTimeout, lifespan;
      available, used, wasted := [], [], Names(capacity);
      cells := map c | c in Names(capacity) :: Fresh();
      EmptyIsWellFormed(capacity, idleTimeout, lifespan);
    }

    /** The generator and iterator-range constructors: `values` is what they yield, in order. */
    constructor WithValues(values: seq<Value>, idleTimeout: Ticks, lifespan: Ticks, now: Ticks)
      ensures Valid() && View() == Filled(values, idleTimeout, lifespan, now)
    {
      this.idleTimeout, this.lifespan := idleTimeout, lifespan;
      used, wasted := [], [];
      new;
      var dropTime := Min(Add(now, idleTimeout), Add(now, lifespan));
      available, cells := [], map[];
      for i := 0 to |values|
        invariant used == [] && wasted == []
        invariant available == Names(i)
        invariant cells.Keys == set c | c in Names(i)
        invariant forall c :: c in cells ==> c < i && cells[c] == Idle(Some(values[c]), dropTime, now, false)
      {
        available := available + [i];
        cells := cells[i := Idle(Some(values[i]), dropTime, now, false)];
        assert available == Names(i + 1);
      }
      FilledIsWellFormed(values, idleTimeout, lifespan, now);
      assert cells == Filled(values, idleTimeout, lifespan, now).cells;
    }

    method Stats() returns (availableCount: nat, usedCount: nat, wastedCount: nat)
      requires Valid()
      ensures availableCount == |available| && usedCount == |used| && wastedCount == |wasted|
      ensures availableCount + usedCount + wastedCount == |cells|
    {
      Sizes(View());
      return |available|, |used|, |wasted|;
    }

    /** The loop of lease: expired cells at the front of `available` are emptied and put aside,
        up to the first one that may be handed out. */
    method DropExpired(now: Ticks)
      requires forall i :: 0 <= i < |available| ==> available[i] in cells
      modifies this
      ensures View() == Swept(old(View()), ExpiredPrefix(old(cells), old(available), now))
    {
      ghost var s := View();
      ghost var p, k := ExpiredPrefix(cells, available, now), 0;
      assert Emptied(s.cells, s.available[..0]) == s.cells;
      while available != []
        invariant k <= p
        invariant available == s.available[k..] && used == s.used
        invariant wasted == s.wasted + s.available[..k]
        invariant cells == Emptied(s.cells, s.available[..k])
        decreases |available|
      {
        var candidate := available[0];
        SweptOneMore(s.cells, s.available, s.wasted, k);
        if cells[candidate].dropTime > now {
          assert k == p;
          return;
        }
        cells := cells[candidate := cells[candidate].(value := None)];
        wasted, available := wasted + [candidate], available[1..];
        k := k + 1;
      }
      assert k == p;
    }

    method Lease(now: Ticks) returns (cell: Option<CellId>)
      requires Valid()
      modifies this
      ensures View() == StorageSpec.Lease(old(View()), now).0
      ensures cell == StorageSpec.Lease(old(View()), now).1
      ensures Valid() && cells.Keys == old(cells.Keys)
    {
      ghost var s := View();
      assert forall i :: 0 <= i < |available| ==> available[i] in cells by { InListsAll(s); }
      DropExpired(now);
      LeaseFromSwept(s, now);
      if available != [] {
        var candidate := available[0];
        used, available := used + [candidate], available[1..];
        return Some(candidate);
      }
      if wasted != [] {
        var result := wasted[0];
        cells := cells[result := cells[result].(wasteOnRecycle := false)];
        used, wasted := used + [result], wasted[1..];
        return Some(result);
      }
      return None;
    }

    method Recycle(cell: CellId, now: Ticks)
      requires Valid() && cell in used
      modifies this
      ensures Valid() && cells.Keys == old(cells.Keys)
      ensures cell in old(cells) && View() == StorageSpec.Recycle(old(View()), cell, now)
      ensures forall c :: c in old(used) && c != cell ==> c in used
    {
      WithoutKeeps(used, cell);
      InLists(View(), cell);
      RecycleIsWellFormed(View(), cell, now);
      if cells[cell].wasteOnRecycle {
        Waste(cell);
        return;
      }
      var lifeEnd := Add(cells[cell].resetTime, lifespan);
      if lifeEnd <= now {
        Waste(cell);
        return;
      }
      cells := cells[cell := cells[cell].(dropTime := Min(Add(now, idleTimeout), lifeEnd))];
      available, used := available + [cell], Without(used, cell);
    }

    method Waste(cell: CellId)
      requires Valid() && cell in used
      modifies this
      ensures Valid() && cells.Keys == old(cells.Keys)
      ensures cell in old(cells) && View() == StorageSpec.Waste(old(View()), cell)
      ensures forall c :: c in old(used) && c != cell ==> c in used
    {
      WithoutKeeps(used, cell);
      InLists(View(), cell);
      WasteIsWellFormed(View(), cell);
      ResetCell(cell);
      wasted, used := wasted + [cell], Without(used, cell);
    }

    /** `cell->value.reset()`. */
    method ResetCell(cell: CellId)
      requires Valid() && cell in used
      modifies this`cells
      ensures Valid() && cells.Keys == old(cells.Keys)
      ensures cell in old(cells) && View() == Clear(old(View()), cell)
    {
      InLists(View(), cell);
      ClearIsWellFormed(View(), cell);
      cells := cells[cell := cells[cell].(value := None)];
    }

    /** The write a handle makes through its iterator. */
    method PutValue(cell: CellId, value: Value, now: Ticks)
      requires Valid() && cell in used
      modifies this`cells
      ensures Valid() && cells.Keys == old(cells.Keys)
      ensures cell in old(cells) && View() == Put(old(View()), cell, value, now)
    {
      InLists(View(), cell);
      PutIsWellFormed(View(), cell, value, now);
      cells := cells[cell := cells[cell].(value := Some(value), resetTime := now)];
    }

    method IsValid(cell: CellId, now: Ticks) returns (valid: bool)
      requires Valid() && cell in used
      ensures cell in cells && valid == StorageSpec.IsValid(View(), cell, now)
    {
      InLists(View(), cell);
      if cells[cell].wasteOnRecycle {
        return false;
      }
      var lifeEnd := Add(cells[cell].resetTime, lifespan);
      if lifeEnd <= now {
        return false;
      }
      return true;
    }

    method Invalidate()
      requires Valid()
      modifies this
      ensures Valid() && cells.Keys == old(cells.Keys)
      ensures View() == StorageSpec.Invalidate(old(View()))
    {
      ghost var s := View();
      InvalidateIsWellFormed(s);
      assert (forall c :: c in s.available ==> c in s.cells) && (forall c :: c in s.used ==> c in s.cells) by {
        InListsAll(s);
      }
      assert Emptied(s.cells, s.available[..0]) == s.cells;
      for i := 0 to |available|
        invariant available == s.available && used == s.used && wasted == s.wasted
        invariant cells == Emptied(s.cells, s.available[..i])
      {
        var cell := available[i];
        EmptiedOneMore(s.cells, s.available, i);
        cells := cells[cell := cells[cell].(value := None)];
      }
      assert s.available[..|s.available|] == s.available;
      wasted, available := wasted + available, [];
      ghost var emptied := cells;
      assert Flagged(emptied, s.used[..0]) == emptied;
      for i := 0 to |used|
        invariant available == [] && used == s.used && wasted == s.wasted + s.available
        invariant cells == Flagged(emptied, s.used[..i])
      {
        var cell := used[i];
        FlaggedOneMore(emptied, s.used, i);
        cells := cells[cell := cells[cell].(wasteOnRecycle := true)];
      }
      assert s.used[..|s.used|] == s.used;
    }
  }
}
