/** What the storage does, cell by cell and place by place: which records each operation changes, and in
    which order the cells come back out. */
module StorageLaws {
  import opened Wrappers
  import opened TimeTraits
  import opened Sequences
  import opened StorageSpec

  // ---------- records ----------

  /** Beyond the listed cells no record differs. */
  ghost predicate OnlyDiffer(s: StorageState, t: StorageState, ids: seq<CellId>) {
    t.cells.Keys == s.cells.Keys && forall d :: d in s.cells && d !in ids ==> t.cells[d] == s.cells[d]
  }

  /** The first k available cells have run out, and the next one, if any, has not. */
  ghost predicate FreshAt(s: StorageState, now: Ticks, k: nat) {
    && k <= |s.available|
    && (forall i :: 0 <= i < k ==> s.available[i] in s.cells && s.cells[s.available[i]].dropTime <= now)
    && (k < |s.available| ==> s.available[k] in s.cells && s.cells[s.available[k]].dropTime > now)
  }

  /** The listed cells have lost their values. */
  ghost predicate AreEmptied(s: StorageState, t: StorageState, ids: seq<CellId>) {
    forall d :: d in ids ==> d in s.cells && d in t.cells && t.cells[d] == s.cells[d].(value := None)
  }

  lemma SweepRecords(s: StorageState, k: nat)
    requires WellFormed(s) && k <= |s.available|
    ensures OnlyDiffer(s, Swept(s, k), s.available[..k]) && AreEmptied(s, Swept(s, k), s.available[..k])
  {
    InListsAll(s);
  }

  /** A lease of an available cell hands it out as it is, value and all; the expired cells before it lose
      their values, and no other record changes. */
  lemma LeaseAvailableRecords(s: StorageState, now: Ticks, k: nat)
    requires WellFormed(s) && FreshAt(s, now, k) && k < |s.available|
    ensures var (t, r) := Lease(s, now);
            && r == Some(s.available[k]) && OnlyDiffer(s, t, s.available[..k]) && AreEmptied(s, t, s.available[..k])
            && r.value in t.cells && t.cells[r.value] == s.cells[r.value]
  {
    InListsAll(s);
    PrefixFound(s, now, k);
    SweepRecords(s, k);
    NotInPrefix(s, k);
    assert Lease(s, now).0 == TakeAvailable(Swept(s, k));
  }

  /** A lease of a wasted cell lowers its flag; all available cells lose their values, and no other record
      changes. */
  lemma LeaseWastedRecords(s: StorageState, now: Ticks)
    requires WellFormed(s) && FreshAt(s, now, |s.available|) && s.wasted + s.available != []
    ensures var (t, r) := Lease(s, now);
            && r == Some((s.wasted + s.available)[0]) && OnlyDiffer(s, t, s.available + [r.value])
            && r.value in s.cells && r.value in t.cells
            && t.cells[r.value] == s.cells[r.value].(value := None, wasteOnRecycle := false)
            && (forall d :: d in s.available && d != r.value ==>
                  d in s.cells && d in t.cells && t.cells[d] == s.cells[d].(value := None))
  {
    InListsAll(s);
    var k := |s.available|;
    PrefixFound(s, now, k);
    assert s.available[..k] == s.available;
    SweepRecords(s, k);
    var u := Swept(s, k);
    WastedIsEmpty(s, u.wasted[0]);
    assert Lease(s, now) == (TakeWasted(u), Some(u.wasted[0]));
  }

  lemma NotInPrefix(s: StorageState, k: nat)
    requires WellFormed(s) && k < |s.available|
    ensures s.available[k] !in s.available[..k]
  {
    InLists(s, s.available[k]);
    if s.available[k] in s.available[..k] {
      var i :| 0 <= i < k && s.available[i] == s.available[k];
      TwiceInMultiset(s.available, i, k);
    }
  }

  /** A cell that is wasted, or available and emptied, has no value. */
  lemma WastedIsEmpty(s: StorageState, c: CellId)
    requires WellFormed(s) && c in s.wasted + s.available
    ensures c in s.cells && Emptied(s.cells, s.available)[c] == s.cells[c].(value := None)
  {
    InListsAll(s);
    if c in s.available {
    } else {
      assert c in s.wasted;
    }
  }

  lemma RecycleRecords(s: StorageState, c: CellId, now: Ticks)
    requires WellFormed(s) && c in s.used && c in s.cells
    ensures OnlyDiffer(s, StorageSpec.Recycle(s, c, now), [c])
    ensures var t := StorageSpec.Recycle(s, c, now);
            t.cells[c] == s.cells[c].(value := t.cells[c].value, dropTime := t.cells[c].dropTime)
  {
    RecycleIsWellFormed(s, c, now);
  }

  lemma WasteRecords(s: StorageState, c: CellId)
    requires WellFormed(s) && c in s.used && c in s.cells
    ensures OnlyDiffer(s, StorageSpec.Waste(s, c), [c])
    ensures StorageSpec.Waste(s, c).cells[c] == s.cells[c].(value := None)
  {
    WasteIsWellFormed(s, c);
  }

  /** Destroying a value through the iterator. */
  lemma ClearRecords(s: StorageState, c: CellId)
    requires c in s.cells
    ensures OnlyDiffer(s, Clear(s, c), [c]) && Clear(s, c).cells[c] == s.cells[c].(value := None)
    ensures var t := Clear(s, c); t.available == s.available && t.used == s.used && t.wasted == s.wasted
  {
  }

  lemma InvalidateRecords(s: StorageState)
    requires WellFormed(s)
    ensures var t := StorageSpec.Invalidate(s);
            && OnlyDiffer(s, t, s.available + s.used)
            && (forall d :: d in s.available ==> d in s.cells && t.cells[d] == s.cells[d].(value := None))
            && (forall d :: d in s.used ==> d in s.cells && t.cells[d] == s.cells[d].(wasteOnRecycle := true))
  {
    InListsAll(s);
  }

  lemma PutRecords(s: StorageState, c: CellId, v: Value, now: Ticks)
    requires c in s.cells
    ensures OnlyDiffer(s, Put(s, c, v, now), [c])
    ensures Put(s, c, v, now).cells[c] == s.cells[c].(value := Some(v), resetTime := now)
    ensures var t := Put(s, c, v, now); t.available == s.available && t.used == s.used && t.wasted == s.wasted
  {
  }

  // ---------- places ----------

  /** Some available cell may still be handed out. */
  ghost predicate HasFresh(s: StorageState, now: Ticks) {
    exists c :: c in s.available && c in s.cells && s.cells[c].dropTime > now
  }

  lemma FreshPosition(s: StorageState, now: Ticks) returns (k: nat)
    requires WellFormed(s)
    ensures FreshAt(s, now, k) && (k < |s.available| <==> HasFresh(s, now))
  {
    InListsAll(s);
    k := ExpiredPrefix(s.cells, s.available, now);
    assert forall i :: 0 <= i < |s.available| ==> s.available[i] in s.available;
  }

  /** Which cell a lease takes: the first that is fresh; without one, the first of the wasted cells
      followed by the available ones. */
  function Taken(s: StorageState, k: nat): Option<CellId>
    requires k <= |s.available|
  {
    if k < |s.available| then Some(s.available[k])
    else if s.wasted + s.available == [] then None else Some((s.wasted + s.available)[0])
  }

  lemma LeaseTakes(s: StorageState, now: Ticks, k: nat)
    requires WellFormed(s) && FreshAt(s, now, k)
    ensures Lease(s, now).1 == Taken(s, k)
  {
    LeaseOrder(s, now, k);
  }

  /** A cell has been put behind the available ones. */
  ghost predicate PutBehind(s: StorageState, t: StorageState, c: CellId) {
    && t.available == s.available + [c] && t.wasted == s.wasted && c in t.cells
    && (forall d :: d in s.available && d in s.cells ==> d in t.cells && t.cells[d] == s.cells[d])
  }

  lemma BehindAll(s: StorageState, t: StorageState, c: CellId, later: Ticks, k: nat)
    requires PutBehind(s, t, c) && FreshAt(s, later, k)
    ensures k < |s.available| ==> FreshAt(t, later, k) && Taken(t, k) == Taken(s, k)
    ensures k == |s.available| && t.cells[c].dropTime > later ==> FreshAt(t, later, k) && Taken(t, k) == Some(c)
    ensures k == |s.available| && t.cells[c].dropTime <= later ==>
              FreshAt(t, later, k + 1) && Taken(t, k + 1) == Some((s.wasted + s.available + [c])[0])
  {
    assert forall i :: 0 <= i < |s.available| ==> t.available[i] == s.available[i] && s.available[i] in s.available;
    assert t.wasted + t.available == s.wasted + s.available + [c];
  }

  lemma RecycledIsBehind(s: StorageState, c: CellId, now: Ticks)
    requires WellFormed(s) && c in s.used && c in s.cells && StorageSpec.IsValid(s, c, now)
    ensures PutBehind(s, StorageSpec.Recycle(s, c, now), c) && WellFormed(StorageSpec.Recycle(s, c, now))
    ensures Without(StorageSpec.Recycle(s, c, now).available, c) == s.available
  {
    RecycleIsWellFormed(s, c, now);
    InListsAll(s);
    WithoutLast(s.available, c);
  }

  /** A recycled cell stands behind all that were available: whatever may be leased of these is leased before
      it, then it, and if its time has run out as well it is wasted behind them. No other cell moves. */
  lemma RecycledIsLeasedLast(s: StorageState, c: CellId, now: Ticks, later: Ticks)
    requires WellFormed(s) && c in s.used && c in s.cells && StorageSpec.IsValid(s, c, now)
    ensures var t := StorageSpec.Recycle(s, c, now);
            && c in t.cells && t.wasted == s.wasted && Without(t.available, c) == s.available
            && (HasFresh(s, later) ==> Lease(t, later).1 == Lease(s, later).1)
            && (!HasFresh(s, later) && t.cells[c].dropTime > later ==> Lease(t, later).1 == Some(c))
            && (!HasFresh(s, later) && t.cells[c].dropTime <= later ==>
                  Lease(t, later).1 == Some((s.wasted + s.available + [c])[0]))
  {
    var t := StorageSpec.Recycle(s, c, now);
    RecycledIsBehind(s, c, now);
    var k := FreshPosition(s, later);
    BehindAll(s, t, c, later, k);
    LeaseTakes(s, later, k);
    LeaseTakes(t, later, if k == |s.available| && t.cells[c].dropTime <= later then k + 1 else k);
  }

  lemma {:induction false} WithoutLast<T>(s: seq<T>, x: T)
    requires x !in s
    ensures Without(s + [x], x) == s
  {
    if s != [] {
      WithoutLast(s[1..], x);
      assert (s + [x])[1..] == s[1..] + [x];
      assert s == [s[0]] + s[1..];
    }
  }

  /** Two cells recycled one after the other are leased in that order, behind what was available. */
  lemma RecycledAreLeasedInOrder(s: StorageState, c: CellId, d: CellId, now: Ticks, now': Ticks, later: Ticks)
    requires WellFormed(s) && c != d && c in s.used && d in s.used && c in s.cells && d in s.cells
    requires StorageSpec.IsValid(s, c, now) && StorageSpec.IsValid(s, d, now')
    ensures d in StorageSpec.Recycle(s, c, now).cells
    ensures var t := StorageSpec.Recycle(StorageSpec.Recycle(s, c, now), d, now');
            && c in t.cells && d in t.cells
            && (HasFresh(s, later) ==> Lease(t, later).1 == Lease(s, later).1)
            && (!HasFresh(s, later) && t.cells[c].dropTime > later ==> Lease(t, later).1 == Some(c))
            && (!HasFresh(s, later) && t.cells[c].dropTime <= later && t.cells[d].dropTime > later ==>
                  Lease(t, later).1 == Some(d))
  {
    var u := StorageSpec.Recycle(s, c, now);
    RecycleIsWellFormed(s, c, now);
    RecycleRecords(s, c, now);
    RecycleRecords(s, d, now');
    WithoutKeeps(s.used, c);
    InListsAll(s);
    RecycledIsLeasedLast(s, c, now, later);
    RecycleRecords(u, d, now');
    RecycledIsLeasedLast(u, d, now', later);
    FreshAfterRecycle(s, c, now, later);
  }

  lemma FreshAfterRecycle(s: StorageState, c: CellId, now: Ticks, later: Ticks)
    requires WellFormed(s) && c in s.used && c in s.cells && StorageSpec.IsValid(s, c, now)
    ensures var t := StorageSpec.Recycle(s, c, now);
            c in t.cells && (HasFresh(t, later) <==> HasFresh(s, later) || t.cells[c].dropTime > later)
  {
    var t := StorageSpec.Recycle(s, c, now);
    InListsAll(s);
    assert t.available[|s.available|] == c;
    forall d | d in s.available ensures d in t.available && t.cells[d] == s.cells[d] {
    }
    forall d | d in t.available && d != c ensures d in s.available {
    }
  }

  /** A wasted cell stands behind the wasted ones, and is leased before any that run out later. */
  lemma WastedIsLeasedInTurn(s: StorageState, c: CellId, later: Ticks)
    requires WellFormed(s) && c in s.used && c in s.cells
    ensures var t := StorageSpec.Waste(s, c);
            && t.available == s.available && Without(t.wasted, c) == s.wasted
            && (HasFresh(s, later) ==> Lease(t, later).1 == Lease(s, later).1)
            && (!HasFresh(s, later) ==> Lease(t, later).1 == Some((s.wasted + [c] + s.available)[0]))
            && (forall d :: d in s.wasted ==> PrecedesIn(t.wasted, d, c))
  {
    var t := StorageSpec.Waste(s, c);
    WasteIsWellFormed(s, c);
    WastedIsBehind(s, c);
    var k := FreshPosition(s, later);
    assert forall i :: 0 <= i < |s.available| ==> s.available[i] in s.available;
    LeaseTakes(s, later, k);
    LeaseTakes(t, later, k);
    assert s.wasted + [c] + s.available == t.wasted + t.available;
  }

  lemma WastedIsBehind(s: StorageState, c: CellId)
    requires WellFormed(s) && c in s.used && c in s.cells
    ensures var t := StorageSpec.Waste(s, c);
            && t.available == s.available && Without(t.wasted, c) == s.wasted
            && (forall d :: d in s.wasted ==> PrecedesIn(t.wasted, d, c))
            && (forall d :: d in s.available ==> d in s.cells && d in t.cells && t.cells[d] == s.cells[d])
  {
    var t := StorageSpec.Waste(s, c);
    InListsAll(s);
    WithoutLast(s.wasted, c);
    forall d | d in s.wasted ensures PrecedesIn(t.wasted, d, c) {
      var i :| 0 <= i < |s.wasted| && s.wasted[i] == d;
      assert t.wasted[i] == d && t.wasted[|s.wasted|] == c;
    }
  }

  ghost predicate PrecedesIn(ids: seq<CellId>, c: CellId, d: CellId) {
    exists i, j :: 0 <= i < j < |ids| && ids[i] == c && ids[j] == d
  }

  /** After an invalidation all free cells are leased without a value, the ones wasted before it first. */
  lemma InvalidatedAreLeasedEmpty(s: StorageState, later: Ticks)
    requires WellFormed(s)
    ensures var t := StorageSpec.Invalidate(s);
            && t.available == [] && t.used == s.used && t.wasted == s.wasted + s.available
            && var (u, r) := Lease(t, later);
               && (s.wasted + s.available == [] ==> r == None)
               && (s.wasted + s.available != [] ==>
                     r == Some((s.wasted + s.available)[0]) && r.value in u.cells && u.cells[r.value].value == None)
  {
    var t := StorageSpec.Invalidate(s);
    InvalidateIsWellFormed(s);
    LeaseTakes(t, later, 0);
    if t.wasted != [] {
      assert t.wasted + t.available == t.wasted;
      LeaseWastedRecords(t, later);
    }
  }
}
