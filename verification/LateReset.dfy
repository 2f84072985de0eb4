/** The part of a hand-off outside the pool's lock. Having taken a waiter off the queue, recycle and
    waste let go of the lock and destroy the cell's value after that, while other threads may use the
    storage. That comes to the same as doing it under the lock: the cell is in use and nobody
    else's, so no call of theirs can tell. */
module LateReset {
  import opened Wrappers
  import opened TimeTraits
  import opened Sequences
  import opened StorageSpec

  /** The call is made through an iterator to c. */
  predicate Targets(call: Call, c: CellId) {
    (call.CallRecycle? || call.CallWaste? || call.CallPut?) && call.cell == c
  }

  lemma {:induction false} PrefixIgnoresValues(cells: map<CellId, Idle>, c: CellId, ids: seq<CellId>, now: Ticks)
    requires c in cells
    ensures ExpiredPrefix(cells[c := cells[c].(value := None)], ids, now) == ExpiredPrefix(cells, ids, now)
  {
    if ids != [] {
      PrefixIgnoresValues(cells, c, ids[1..], now);
    }
  }

  lemma SweptCommutes(s: StorageState, c: CellId, k: nat)
    requires c in s.cells && k <= |s.available|
    ensures Swept(Clear(s, c), k) == Clear(Swept(s, k), c)
  {
    assert Emptied(Clear(s, c).cells, s.available[..k]) == Clear(Swept(s, k), c).cells;
  }

  lemma TakeWastedCommutes(s: StorageState, c: CellId)
    requires s.wasted != [] && c in s.cells && c != s.wasted[0]
    ensures TakeWasted(Clear(s, c)) == Clear(TakeWasted(s), c)
  {
    assert TakeWasted(Clear(s, c)).cells == Clear(TakeWasted(s), c).cells;
  }

  /** A lease in between takes the cell it would have taken. */
  lemma LeaseCommutes(s: StorageState, c: CellId, now: Ticks)
    requires WellFormed(s) && c in s.used && c in s.cells
    ensures var t := Lease(s, now).0;
            && c in t.used && c in t.cells
            && Lease(Clear(s, c), now).0 == Clear(t, c)
            && Lease(Clear(s, c), now).1 == Lease(s, now).1
  {
    var k := ExpiredPrefix(s.cells, s.available, now);
    PrefixIgnoresValues(s.cells, c, s.available, now);
    SweptCommutes(s, c, k);
    SweptIsWellFormed(s, k);
    var swept := Swept(s, k);
    if swept.available == [] && swept.wasted != [] {
      InLists(swept, c);
      TakeWastedCommutes(swept, c);
    }
  }

  lemma WasteCommutes(s: StorageState, c: CellId, d: CellId)
    requires c in s.used && c in s.cells && d in s.cells && c != d
    ensures var t := Waste(s, d);
            && c in t.used && c in t.cells
            && Waste(Clear(s, c), d) == Clear(t, c)
  {
    WithoutKeeps(s.used, d);
    assert Waste(Clear(s, c), d).cells == Clear(Waste(s, d), c).cells;
  }

  lemma RecycleCommutes(s: StorageState, c: CellId, d: CellId, now: Ticks)
    requires c in s.used && c in s.cells && d in s.cells && c != d
    ensures var t := Recycle(s, d, now);
            && c in t.used && c in t.cells
            && Recycle(Clear(s, c), d, now) == Clear(t, c)
  {
    if IsValid(s, d, now) {
      WithoutKeeps(s.used, d);
      assert Recycle(Clear(s, c), d, now).cells == Clear(Recycle(s, d, now), c).cells;
    } else {
      WasteCommutes(s, c, d);
    }
  }

  lemma InvalidateCommutes(s: StorageState, c: CellId)
    requires WellFormed(s) && c in s.used && c in s.cells
    ensures var t := Invalidate(s);
            && c in t.used && c in t.cells
            && Invalidate(Clear(s, c)) == Clear(t, c)
  {
    InLists(s, c);
    assert Invalidate(Clear(s, c)).cells == Clear(Invalidate(s), c).cells;
  }

  lemma CallCommutes(s: StorageState, c: CellId, call: Call)
    requires WellFormed(s) && c in s.used && c in s.cells && Allowed(s, call) && !Targets(call, c)
    ensures Allowed(Clear(s, c), call)
    ensures WellFormed(Apply(s, call))
    ensures var t := Apply(s, call);
            && c in t.used && c in t.cells
            && Apply(Clear(s, c), call) == Clear(t, c)
  {
    assert ApplyAll(s, [call]) == Apply(s, call) && AllAllowed(s, [call]) by {
      assert [call][1..] == [];
    }
    CallsConserveCells(s, [call]);
    match call
    case CallLease(now) => LeaseCommutes(s, c, now);
    case CallRecycle(d, now) => RecycleCommutes(s, c, d, now);
    case CallWaste(d) => WasteCommutes(s, c, d);
    case CallInvalidate => InvalidateCommutes(s, c);
    case CallPut(d, v, now) => assert Put(Clear(s, c), d, v, now).cells == Clear(Put(s, d, v, now), c).cells;
  }

  /** However many calls of the others come between the unlock and the late reset, the storage ends
      up as if the value had been destroyed under the lock, and each of those calls was as legal. */
  lemma {:induction false} LateResetCommutes(s: StorageState, c: CellId, calls: seq<Call>)
    requires WellFormed(s) && c in s.used && c in s.cells && AllAllowed(s, calls)
    requires forall i :: 0 <= i < |calls| ==> !Targets(calls[i], c)
    ensures AllAllowed(Clear(s, c), calls)
    ensures var t := ApplyAll(s, calls);
            && c in t.used && c in t.cells
            && ApplyAll(Clear(s, c), calls) == Clear(t, c)
    decreases |calls|
  {
    if calls != [] {
      CallCommutes(s, c, calls[0]);
      LateResetCommutes(Apply(s, calls[0]), c, calls[1..]);
    }
  }
}
