/** The cell allocator as a state and functions on it. A cell is named by its list node
    (a list iterator in the source); the three lists hold cell names, `cells` the records. */
module StorageSpec {
  import opened Wrappers
  import opened TimeTraits
  import opened Sequences

  type CellId = nat

  /** The pooled resource; the pool never looks inside it. */
  type Value(==, !new)

  datatype Idle = Idle(value: Option<Value>, dropTime: Ticks, resetTime: Ticks, wasteOnRecycle: bool)

  datatype StorageState = StorageState(
    idleTimeout: Ticks,
    lifespan: Ticks,
    available: seq<CellId>,
    used: seq<CellId>,
    wasted: seq<CellId>,
    cells: map<CellId, Idle>)

  // ---------- invariant ----------

  /** Every cell is in exactly one list, exactly once. */
  ghost predicate Conserved(s: StorageState) {
    multiset(s.available) + multiset(s.used) + multiset(s.wasted) == multiset(s.cells.Keys)
  }

  ghost predicate WellFormed(s: StorageState) {
    && Conserved(s)
    && (forall c :: c in s.wasted && c in s.cells ==> s.cells[c].value.None?)
    && (forall c :: c in s.available && c in s.cells ==>
          !s.cells[c].wasteOnRecycle && s.cells[c].dropTime <= LifeEnd(s, c))
  }

  function LifeEnd(s: StorageState, c: CellId): Ticks
    requires c in s.cells
  {
    Add(s.cells[c].resetTime, s.lifespan)
  }

  lemma InLists(s: StorageState, c: CellId)
    requires Conserved(s)
    ensures c in s.cells <==> c in s.available || c in s.used || c in s.wasted
    ensures !(c in s.available && c in s.used)
    ensures !(c in s.available && c in s.wasted)
    ensures !(c in s.used && c in s.wasted)
    ensures multiset(s.available)[c] <= 1 && multiset(s.used)[c] <= 1 && multiset(s.wasted)[c] <= 1
  {
    var m := multiset(s.available) + multiset(s.used) + multiset(s.wasted);
    assert m[c] == multiset(s.cells.Keys)[c];
    assert c in s.available <==> multiset(s.available)[c] > 0;
    assert c in s.used <==> multiset(s.used)[c] > 0;
    assert c in s.wasted <==> multiset(s.wasted)[c] > 0;
  }

  /** InLists for every cell at once. */
  lemma InListsAll(s: StorageState)
    requires Conserved(s)
    ensures forall c :: c in s.cells <==> c in s.available || c in s.used || c in s.wasted
    ensures forall c :: c in s.available ==> c !in s.used && c !in s.wasted
    ensures forall c :: c in s.used ==> c !in s.wasted
  {
    forall c
      ensures c in s.cells <==> c in s.available || c in s.used || c in s.wasted
      ensures c in s.available ==> c !in s.used && c !in s.wasted
      ensures c in s.used ==> c !in s.wasted
    {
      InLists(s, c);
    }
  }

  lemma Sizes(s: StorageState)
    requires Conserved(s)
    ensures |s.available| + |s.used| + |s.wasted| == |s.cells|
  {
    assert |multiset(s.available) + multiset(s.used) + multiset(s.wasted)| == |multiset(s.cells.Keys)|;
  }

  // ---------- construction ----------

  function Fresh(): Idle {
    Idle(None, MAX, EPOCH, false)
  }

  /** The names of the n nodes of a new list, in order. */
  function Names(n: nat): (r: seq<CellId>)
    ensures |r| == n && forall i :: 0 <= i < n ==> r[i] == i
  {
    seq(n, i => i)
  }

  /** A storage of `capacity` empty cells. */
  function Empty(capacity: nat, idleTimeout: Ticks, lifespan: Ticks): StorageState {
    StorageState(idleTimeout, lifespan, [], [], Names(capacity), map c | c in Names(capacity) :: Fresh())
  }

  /** A storage whose cells hold the given values. */
  function Filled(values: seq<Value>, idleTimeout: Ticks, lifespan: Ticks, now: Ticks): StorageState {
    var dropTime := Min(Add(now, idleTimeout), Add(now, lifespan));
    StorageState(idleTimeout, lifespan, Names(|values|), [], [],
                 map c | c in Names(|values|) :: Idle(Some(values[c]), dropTime, now, false))
  }

  lemma {:induction false} NamesOnce(n: nat)
    ensures multiset(Names(n)) == multiset(set c | c in Names(n))
  {
    if n > 0 {
      NamesOnce(n - 1);
      assert Names(n) == Names(n - 1) + [n - 1];
      var fewer := Names(n - 1);
      assert (set c | c in Names(n)) == (set c | c in fewer) + {n - 1};
    }
  }

  lemma EmptyIsWellFormed(capacity: nat, idleTimeout: Ticks, lifespan: Ticks)
    ensures WellFormed(Empty(capacity, idleTimeout, lifespan))
    ensures |Empty(capacity, idleTimeout, lifespan).cells| == capacity
    ensures var s := Empty(capacity, idleTimeout, lifespan);
            && s.available == [] && s.used == [] && |s.wasted| == capacity
            && (forall i :: 0 <= i < capacity ==>
                  s.wasted[i] in s.cells && s.cells[s.wasted[i]] == Idle(None, MAX, EPOCH, false))
  {
    var s := Empty(capacity, idleTimeout, lifespan);
    NamesOnce(capacity);
    assert s.cells.Keys == set c | c in Names(capacity);
    assert Conserved(s);
    Sizes(s);
  }

  lemma FilledIsWellFormed(values: seq<Value>, idleTimeout: Ticks, lifespan: Ticks, now: Ticks)
    ensures WellFormed(Filled(values, idleTimeout, lifespan, now))
    ensures |Filled(values, idleTimeout, lifespan, now).cells| == |values|
    ensures var s := Filled(values, idleTimeout, lifespan, now);
            && |s.available| == |values| && s.used == [] && s.wasted == []
            && (forall i :: 0 <= i < |values| ==>
                  && s.available[i] in s.cells
                  && s.cells[s.available[i]] ==
                     Idle(Some(values[i]),
                          Clamp(now as int + if lifespan < idleTimeout then lifespan as int else idleTimeout as int),
                          now, false))
  {
    MinOfDeadlines(now, idleTimeout, now, lifespan);
    var s := Filled(values, idleTimeout, lifespan, now);
    NamesOnce(|values|);
    assert s.cells.Keys == set c | c in Names(|values|);
    assert Conserved(s);
    Sizes(s);
  }

  // ---------- lease ----------

  /** How many cells at the front of `ids` have run out by `now`. */
  function ExpiredPrefix(cells: map<CellId, Idle>, ids: seq<CellId>, now: Ticks): (k: nat)
    ensures k <= |ids|
    ensures forall i :: 0 <= i < k && ids[i] in cells ==> cells[ids[i]].dropTime <= now
    ensures k < |ids| && ids[k] in cells ==> cells[ids[k]].dropTime > now
  {
    if ids == [] || (ids[0] in cells && cells[ids[0]].dropTime > now) then 0
    else 1 + ExpiredPrefix(cells, ids[1..], now)
  }

  /** The records with the values of the listed cells destroyed. */
  function Emptied(cells: map<CellId, Idle>, ids: seq<CellId>): (r: map<CellId, Idle>)
    ensures r.Keys == cells.Keys
  {
    map c | c in cells :: if c in ids then cells[c].(value := None) else cells[c]
  }

  /** The storage after the first k available cells have been emptied and put aside. */
  function Swept(s: StorageState, k: nat): StorageState
    requires k <= |s.available|
  {
    s.(available := s.available[k..],
       wasted := s.wasted + s.available[..k],
       cells := Emptied(s.cells, s.available[..k]))
  }

  function Unflagged(cells: map<CellId, Idle>, c: CellId): map<CellId, Idle> {
    if c in cells then cells[c := cells[c].(wasteOnRecycle := false)] else cells
  }

  function TakeAvailable(s: StorageState): StorageState
    requires s.available != []
  {
    s.(available := s.available[1..], used := s.used + [s.available[0]])
  }

  function TakeWasted(s: StorageState): StorageState
    requires s.wasted != []
  {
    s.(wasted := s.wasted[1..], used := s.used + [s.wasted[0]], cells := Unflagged(s.cells, s.wasted[0]))
  }

  /** Lease as one closed form: sweep the expired prefix, then take the first available
      cell, else the first wasted cell, else nothing. */
  function Lease(s: StorageState, now: Ticks): (StorageState, Option<CellId>) {
    var t := Swept(s, ExpiredPrefix(s.cells, s.available, now));
    if t.available != [] then (TakeAvailable(t), Some(t.available[0]))
    else if t.wasted != [] then (TakeWasted(t), Some(t.wasted[0]))
    else (t, None)
  }

  lemma EmptiedOneMore(cells: map<CellId, Idle>, ids: seq<CellId>, i: nat)
    requires i < |ids| && ids[i] in cells
    ensures var e := Emptied(cells, ids[..i]);
            Emptied(cells, ids[..i + 1]) == e[ids[i] := e[ids[i]].(value := None)]
  {
    assert ids[..i + 1] == ids[..i] + [ids[i]];
  }

  /** Sweeping one more cell: what one turn of the lease loop does. */
  lemma SweptOneMore(cells: map<CellId, Idle>, available: seq<CellId>, wasted: seq<CellId>, k: nat)
    requires k < |available| && available[k] in cells
    ensures available[k..][0] == available[k] && available[k..][1..] == available[k + 1..]
    ensures (wasted + available[..k]) + [available[k]] == wasted + available[..k + 1]
    ensures var e := Emptied(cells, available[..k]);
            && e[available[k]].dropTime == cells[available[k]].dropTime
            && Emptied(cells, available[..k + 1]) == e[available[k] := e[available[k]].(value := None)]
  {
    EmptiedOneMore(cells, available, k);
    assert available[..k + 1] == available[..k] + [available[k]];
  }

  lemma PrefixFound(s: StorageState, now: Ticks, k: nat)
    requires k <= |s.available|
    requires forall i :: 0 <= i < |s.available| ==> s.available[i] in s.cells
    requires forall i :: 0 <= i < k ==> s.cells[s.available[i]].dropTime <= now
    requires k < |s.available| ==> s.cells[s.available[k]].dropTime > now
    ensures ExpiredPrefix(s.cells, s.available, now) == k
  {
    var j := ExpiredPrefix(s.cells, s.available, now);
    if j < |s.available| {
      assert s.available[j] in s.cells;
    }
  }

  lemma SweptIsWellFormed(s: StorageState, k: nat)
    requires WellFormed(s) && k <= |s.available|
    ensures WellFormed(Swept(s, k))
  {
    var t := Swept(s, k);
    SplitMultiset(s.available, k);
    assert multiset(t.available) + multiset(t.used) + multiset(t.wasted) ==
           multiset(s.available) + multiset(s.used) + multiset(s.wasted);
    InListsAll(s);
    InListsAll(t);
    forall c | c in t.wasted ensures t.cells[c].value.None? {
      assert c in s.wasted || c in s.available[..k];
    }
    forall c | c in t.available ensures c in s.available && t.cells[c] == s.cells[c] {
    }
  }

  lemma TakeAvailableIsWellFormed(s: StorageState)
    requires WellFormed(s) && s.available != []
    ensures WellFormed(TakeAvailable(s))
  {
    var t := TakeAvailable(s);
    assert s.available == [s.available[0]] + s.available[1..];
    assert Conserved(t);
    assert forall c :: c in t.available ==> c in s.available;
  }

  lemma TakeWastedIsWellFormed(s: StorageState)
    requires WellFormed(s) && s.wasted != []
    ensures WellFormed(TakeWasted(s)) && TakeWasted(s).cells.Keys == s.cells.Keys
  {
    var t := TakeWasted(s);
    assert t.cells.Keys == s.cells.Keys;
    assert s.wasted == [s.wasted[0]] + s.wasted[1..];
    assert Conserved(t);
    assert forall c :: c in t.wasted ==> c in s.wasted;
  }

  /** The three ways a lease ends once the expired cells are out of the way. */
  lemma LeaseFromSwept(s: StorageState, now: Ticks)
    requires WellFormed(s)
    ensures WellFormed(Lease(s, now).0) && Lease(s, now).0.cells.Keys == s.cells.Keys
    ensures var t := Swept(s, ExpiredPrefix(s.cells, s.available, now));
            && (t.available != [] ==> Lease(s, now) == (TakeAvailable(t), Some(t.available[0])))
            && (t.available == [] && t.wasted != [] ==>
                  t.wasted[0] in t.cells && Lease(s, now) == (TakeWasted(t), Some(t.wasted[0])))
            && (t.available == [] && t.wasted == [] ==> Lease(s, now) == (t, None))
  {
    var k := ExpiredPrefix(s.cells, s.available, now);
    var t := Swept(s, k);
    SweptIsWellFormed(s, k);
    if t.available != [] {
      TakeAvailableIsWellFormed(t);
    } else if t.wasted != [] {
      InLists(t, t.wasted[0]);
      TakeWastedIsWellFormed(t);
    }
  }

  lemma LeaseIsWellFormed(s: StorageState, now: Ticks)
    requires WellFormed(s)
    ensures WellFormed(Lease(s, now).0)
    ensures Lease(s, now).0.cells.Keys == s.cells.Keys
  {
    LeaseFromSwept(s, now);
  }

  /** Lease fails exactly when every cell is in use, and then it has changed nothing. */
  lemma LeaseFailsIffAllUsed(s: StorageState, now: Ticks)
    requires WellFormed(s)
    ensures Lease(s, now).1.None? <==> |s.used| == |s.cells|
    ensures Lease(s, now).1.None? <==> s.available == [] && s.wasted == []
    ensures Lease(s, now).1.None? ==> Lease(s, now).0 == s
  {
    Sizes(s);
    if s.available == [] && s.wasted == [] {
      assert Emptied(s.cells, []) == s.cells;
    }
  }

  /** What a successful lease hands out: a cell that was not in use, is in use now, holds
      exactly the value it held if it came from `available` (and is then unexpired, both by
      its own deadline and by its lifespan) and nothing otherwise; every cell already in use
      keeps its record, and the flag of the leased cell is down. */
  lemma LeaseGrants(s: StorageState, now: Ticks)
    requires WellFormed(s) && Lease(s, now).1.Some?
    ensures var (t, r) := Lease(s, now);
            && r.value in t.cells && r.value in s.cells && r.value !in s.used && r.value in t.used
            && t.used == s.used + [r.value]
            && !t.cells[r.value].wasteOnRecycle
            && (t.cells[r.value].value.Some? ==>
                  && r.value in s.available
                  && t.cells[r.value] == s.cells[r.value]
                  && t.cells[r.value].dropTime > now
                  && LifeEnd(t, r.value) > now)
            && (forall c :: c in s.used ==> c in t.cells && c in s.cells && t.cells[c] == s.cells[c])
            && (forall c :: c in t.available ==> c in t.cells && c in s.available && t.cells[c] == s.cells[c])
  {
    var k := ExpiredPrefix(s.cells, s.available, now);
    var u := Swept(s, k);
    SweptIsWellFormed(s, k);
    InListsAll(s);
    InListsAll(u);
    var (t, r) := Lease(s, now);
    assert r.value in t.used by { assert t.used[|s.used|] == r.value; }
    if u.available != [] {
      assert u.available[0] == s.available[k];
      InLists(u, u.available[0]);
      assert forall c :: c in s.available[..k] ==> c in u.wasted;
    } else {
      assert u.wasted[0] in u.wasted;
    }
  }

  /** Which cell a lease takes: the first available one whose deadline is ahead, if there is one
      (the cells before it are emptied and moved, in order, behind the wasted ones); otherwise
      all available cells are emptied and moved, and the oldest wasted cell is taken. */
  lemma LeaseOrder(s: StorageState, now: Ticks, k: nat)
    requires WellFormed(s) && k <= |s.available|
    requires forall i :: 0 <= i < k ==> s.available[i] in s.cells && s.cells[s.available[i]].dropTime <= now
    requires k < |s.available| ==> s.available[k] in s.cells && s.cells[s.available[k]].dropTime > now
    ensures var (t, r) := Lease(s, now);
            && (k < |s.available| ==>
                  && r == Some(s.available[k])
                  && t.available == s.available[k + 1..]
                  && t.wasted == s.wasted + s.available[..k])
            && (k == |s.available| ==>
                  && t.available == []
                  && (if s.wasted + s.available == [] then r == None
                      else r == Some((s.wasted + s.available)[0]) && t.wasted == (s.wasted + s.available)[1..]))
            && (forall c :: c in s.available[..k] ==> c in t.cells && t.cells[c].value.None?)
  {
    InListsAll(s);
    PrefixFound(s, now, k);
    assert s.available[..|s.available|] == s.available;
  }

  // ---------- recycle, waste, is_valid, invalidate ----------

  predicate IsValid(s: StorageState, c: CellId, now: Ticks)
    requires c in s.cells
  {
    !s.cells[c].wasteOnRecycle && LifeEnd(s, c) > now
  }

  /** `cell->value.reset()` through an iterator. */
  function Clear(s: StorageState, c: CellId): StorageState
    requires c in s.cells
  {
    s.(cells := s.cells[c := s.cells[c].(value := None)])
  }

  /** Storing a new value through an iterator, as handle::reset does. */
  function Put(s: StorageState, c: CellId, v: Value, now: Ticks): StorageState
    requires c in s.cells
  {
    s.(cells := s.cells[c := s.cells[c].(value := Some(v), resetTime := now)])
  }

  function Waste(s: StorageState, c: CellId): StorageState
    requires c in s.cells
  {
    Clear(s, c).(used := Without(s.used, c), wasted := s.wasted + [c])
  }

  function Recycle(s: StorageState, c: CellId, now: Ticks): StorageState
    requires c in s.cells
  {
    if !IsValid(s, c, now) then Waste(s, c)
    else
      s.(cells := s.cells[c := s.cells[c].(dropTime := Min(Add(now, s.idleTimeout), LifeEnd(s, c)))],
         used := Without(s.used, c),
         available := s.available + [c])
  }

  function Flagged(cells: map<CellId, Idle>, ids: seq<CellId>): (r: map<CellId, Idle>)
    ensures r.Keys == cells.Keys
  {
    map c | c in cells :: if c in ids then cells[c].(wasteOnRecycle := true) else cells[c]
  }

  lemma FlaggedOneMore(cells: map<CellId, Idle>, ids: seq<CellId>, i: nat)
    requires i < |ids| && ids[i] in cells
    ensures var e := Flagged(cells, ids[..i]);
            Flagged(cells, ids[..i + 1]) == e[ids[i] := e[ids[i]].(wasteOnRecycle := true)]
  {
    assert ids[..i + 1] == ids[..i] + [ids[i]];
  }

  function Invalidate(s: StorageState): StorageState {
    s.(available := [],
       wasted := s.wasted + s.available,
       cells := Flagged(Emptied(s.cells, s.available), s.used))
  }

  lemma ClearIsWellFormed(s: StorageState, c: CellId)
    requires WellFormed(s) && c in s.used && c in s.cells
    ensures WellFormed(Clear(s, c)) && Clear(s, c).cells.Keys == s.cells.Keys
  {
    assert Clear(s, c).cells.Keys == s.cells.Keys;
  }

  lemma PutIsWellFormed(s: StorageState, c: CellId, v: Value, now: Ticks)
    requires WellFormed(s) && c in s.used && c in s.cells
    ensures WellFormed(Put(s, c, v, now)) && Put(s, c, v, now).cells.Keys == s.cells.Keys
  {
    InListsAll(s);
    assert Put(s, c, v, now).cells.Keys == s.cells.Keys;
  }

  lemma WasteIsWellFormed(s: StorageState, c: CellId)
    requires WellFormed(s) && c in s.used && c in s.cells
    ensures WellFormed(Waste(s, c)) && Waste(s, c).cells.Keys == s.cells.Keys
  {
    var t := Waste(s, c);
    assert t.cells.Keys == s.cells.Keys;
    WithoutOne(s.used, c);
    assert multiset(t.used) + multiset{c} == multiset(s.used);
    InListsAll(s);
  }

  lemma RecycleIsWellFormed(s: StorageState, c: CellId, now: Ticks)
    requires WellFormed(s) && c in s.used && c in s.cells
    ensures WellFormed(Recycle(s, c, now)) && Recycle(s, c, now).cells.Keys == s.cells.Keys
  {
    WasteIsWellFormed(s, c);
    if IsValid(s, c, now) {
      var t := Recycle(s, c, now);
      assert t.cells.Keys == s.cells.Keys;
      WithoutOne(s.used, c);
      assert multiset(t.used) + multiset{c} == multiset(s.used);
      InListsAll(s);
    }
  }

  lemma InvalidateIsWellFormed(s: StorageState)
    requires WellFormed(s)
    ensures WellFormed(Invalidate(s)) && Invalidate(s).cells.Keys == s.cells.Keys
  {
    InListsAll(s);
  }

  // ---------- the three lists over any sequence of calls ----------

  datatype Call =
    | CallLease(now: Ticks)
    | CallRecycle(cell: CellId, now: Ticks)
    | CallWaste(cell: CellId)
    | CallInvalidate
    | CallPut(cell: CellId, value: Value, now: Ticks)

  /** recycle, waste and a write through an iterator are for cells in use only. */
  predicate Allowed(s: StorageState, call: Call) {
    match call
    case CallRecycle(c, _) => c in s.used && c in s.cells
    case CallWaste(c) => c in s.used && c in s.cells
    case CallPut(c, _, _) => c in s.used && c in s.cells
    case _ => true
  }

  function Apply(s: StorageState, call: Call): StorageState
    requires Allowed(s, call)
  {
    match call
    case CallLease(now) => Lease(s, now).0
    case CallRecycle(c, now) => Recycle(s, c, now)
    case CallWaste(c) => Waste(s, c)
    case CallInvalidate => Invalidate(s)
    case CallPut(c, v, now) => Put(s, c, v, now)
  }

  predicate AllAllowed(s: StorageState, calls: seq<Call>)
    decreases |calls|
  {
    calls == [] || (Allowed(s, calls[0]) && AllAllowed(Apply(s, calls[0]), calls[1..]))
  }

  function ApplyAll(s: StorageState, calls: seq<Call>): StorageState
    requires AllAllowed(s, calls)
    decreases |calls|
  {
    if calls == [] then s else ApplyAll(Apply(s, calls[0]), calls[1..])
  }

  /** No sequence of calls loses, duplicates or adds a cell, keeps a value in a wasted cell,
      or leaves a flagged or overdue-by-lifespan deadline in an available one. */
  lemma {:induction false} CallsConserveCells(s: StorageState, calls: seq<Call>)
    requires WellFormed(s) && AllAllowed(s, calls)
    ensures WellFormed(ApplyAll(s, calls))
    ensures ApplyAll(s, calls).cells.Keys == s.cells.Keys
    decreases |calls|
  {
    if calls != [] {
      match calls[0] {
        case CallLease(now) => LeaseIsWellFormed(s, now);
        case CallRecycle(c, now) => RecycleIsWellFormed(s, c, now);
        case CallWaste(c) => WasteIsWellFormed(s, c);
        case CallInvalidate => InvalidateIsWellFormed(s);
        case CallPut(c, v, now) => PutIsWellFormed(s, c, v, now);
      }
      CallsConserveCells(Apply(s, calls[0]), calls[1..]);
    }
  }

  /** The deadline a recycled cell gets is the exact idle deadline or the exact end of its
      life, whichever is earlier, clamped to the clock's range. */
  lemma RecycleDeadline(s: StorageState, c: CellId, now: Ticks)
    requires WellFormed(s) && c in s.used && c in s.cells
    ensures var t := Recycle(s, c, now);
            c in t.available <==> !s.cells[c].wasteOnRecycle && s.cells[c].resetTime as int + s.lifespan as int > now as int
                                  && now < MAX
    ensures var t := Recycle(s, c, now);
            c in t.available ==>
              && c in t.cells
              && t.cells[c].value == s.cells[c].value
              && t.cells[c].dropTime ==
                 Clamp(var idleEnd := now as int + s.idleTimeout as int;
                       var lifeEnd := s.cells[c].resetTime as int + s.lifespan as int;
                       if lifeEnd < idleEnd then lifeEnd else idleEnd)
    ensures var t := Recycle(s, c, now);
            c !in t.available ==> t == Waste(s, c) && c in t.wasted && c in t.cells && t.cells[c].value.None?
  {
    InListsAll(s);
    MinOfDeadlines(now, s.idleTimeout, s.cells[c].resetTime, s.lifespan);
    if IsValid(s, c, now) {
      var t := Recycle(s, c, now);
      assert t.available[|s.available|] == c;
    } else {
      var t := Recycle(s, c, now);
      assert t.wasted[|s.wasted|] == c;
    }
  }
}
