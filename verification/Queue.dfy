/** The request queue as its lists of nodes: `ordered` in arrival order, the multimap `expires`
    in expiry order, and a free list; each live node points to its place in both. */
module QueueModule {
  import opened Wrappers
  import opened TimeTraits
  import opened Sequences
  import opened QueueSpec

  /** A list node's place in memory; a list iterator is the node it points to. */
  type NodeId = nat

  /** A multimap node. No list node owns two of them, so this pair also serves as the iterator. */
  datatype ExpiryEntry = ExpiryEntry(key: Ticks, req: NodeId)

  /** A list node. `request` is None before the first use and after the handler was moved out. */
  datatype ExpiringRequest = ExpiringRequest(
    ioContext: IoContext,
    request: Option<RequestId>,
    orderIt: Option<NodeId>,
    expiresAtIt: Option<ExpiryEntry>)

  /** What pop returns and what an expired handler is posted with. */
  datatype QueuedValue = QueuedValue(request: RequestId, ctx: IoContext)

  function Queued(w: Waiter): QueuedValue {
    QueuedValue(w.request, w.ctx)
  }

  function QueuedAll(ws: seq<Waiter>): (r: seq<QueuedValue>)
    ensures |r| == |ws| && forall i :: 0 <= i < |ws| ==> r[i] == Queued(ws[i])
  {
    Map(Queued, ws)
  }

  /** Where an entry with this key goes, and where the range of keys up to it ends. */
  function UpperBound(es: seq<ExpiryEntry>, key: Ticks): (k: nat)
    ensures k <= |es|
    ensures forall i :: 0 <= i < k ==> es[i].key <= key
    ensures k < |es| ==> es[k].key > key
  {
    if es == [] || es[0].key > key then 0 else 1 + UpperBound(es[1..], key)
  }

  /** The contents of the live node n when it holds waiter w: both iterators lead back to it. */
  function Linking(w: Waiter, n: NodeId): ExpiringRequest {
    ExpiringRequest(w.ctx, Some(w.request), Some(n), Some(ExpiryEntry(w.deadline, n)))
  }

  /** Every live node is linked into both structures. */
  ghost predicate LiveNodes(nodes: seq<ExpiringRequest>, ordered: seq<NodeId>, live: map<NodeId, Waiter>) {
    forall n :: n in live ==> n in ordered && n < |nodes| && nodes[n] == Linking(live[n], n)
  }

  /** The order list holds the waiters in order of arrival. */
  ghost predicate InOrder(ordered: seq<NodeId>, live: map<NodeId, Waiter>, waiters: seq<Waiter>) {
    && |ordered| == |waiters|
    && (forall i :: 0 <= i < |ordered| ==> ordered[i] in live && live[ordered[i]] == waiters[i])
  }

  /** The multimap holds the given waiters in the given order. */
  ghost predicate InExpiry(expires: seq<ExpiryEntry>, live: map<NodeId, Waiter>, due: seq<Waiter>) {
    && |expires| == |due|
    && (forall j :: 0 <= j < |expires| ==>
          && expires[j].req in live && live[expires[j].req] == due[j]
          && expires[j].key == due[j].deadline)
  }

  /** `due` is the waiters, rearranged into the order they time out. */
  ghost predicate Rearranged(waiters: seq<Waiter>, due: seq<Waiter>) {
    && Arrival(waiters) && Expiring(due)
    && |waiters| == |due|
    && (forall w :: w in due <==> w in waiters)
  }

  lemma RearrangedIsByDeadline(waiters: seq<Waiter>, due: seq<Waiter>)
    requires Rearranged(waiters, due)
    ensures due == ByDeadline(waiters)
  {
    ByDeadlineKeepsOrder(waiters);
    forall w ensures w in ByDeadline(waiters) <==> w in due {
      DueMembers(waiters, w);
    }
    ExpiryOrderIsUnique(due, ByDeadline(waiters));
  }

  /** Both structures hold the same waiters: the order list as they came, the multimap as they
      time out. */
  ghost predicate Linked(nodes: seq<ExpiringRequest>, ordered: seq<NodeId>, expires: seq<ExpiryEntry>,
                         live: map<NodeId, Waiter>, waiters: seq<Waiter>, due: seq<Waiter>)
  {
    && LiveNodes(nodes, ordered, live)
    && InOrder(ordered, live, waiters)
    && InExpiry(expires, live, due)
    && Rearranged(waiters, due)
  }

  /** The free list: distinct nodes, none of them live, none with a handler left in it. */
  ghost predicate FreeNodes(nodes: seq<ExpiringRequest>, pool: seq<NodeId>, live: map<NodeId, Waiter>) {
    Distinct(pool) && (forall n :: n in pool ==> n < |nodes| && n !in live && nodes[n].request.None?)
  }

  class Queue {
    const capacity: nat
    var nodes: seq<ExpiringRequest>
    var orderedPool: seq<NodeId>
    var ordered: seq<NodeId>
    var expires: seq<ExpiryEntry>
    var timers: map<IoContext, Timer>
    ghost var live: map<NodeId, Waiter>
    ghost var waiters: seq<Waiter>
    ghost var due: seq<Waiter>
    ghost var nextTicket: nat

    ghost function View(): QueueState
      reads this
    {
      QueueState(capacity, waiters, nextTicket, timers)
    }

    /** Live and free nodes together are all the nodes there are, never more than the capacity. */
    ghost predicate Spare()
      reads this
    {
      |ordered| + |orderedPool| == |nodes| <= capacity && FreeNodes(nodes, orderedPool, live)
    }

    ghost predicate Valid()
      reads this
    {
      Linked(nodes, ordered, expires, live, waiters, due) && Spare() && QueueInv(View())
    }

    constructor (capacity: nat)
      ensures View() == QueueState(capacity, [], 0, map[])
      ensures Valid()
    {
      this.capacity := capacity;
      nodes, orderedPool, ordered, expires, timers := [], [], [], [], map[];
      live, waiters, due, nextTicket := map[], [], [], 0;
    }

    method Size() returns (n: nat)
      requires Valid()
      ensures n == |View().waiters|
    {
      return |expires|;
    }

    method IsEmpty() returns (b: bool)
      requires Valid()
      ensures b <==> View().waiters == []
      ensures b <==> |expires| == 0
    {
      return ordered == [];
    }

    /** The timer of an io context, created on first use. */
    method GetTimer(ctx: IoContext)
      modifies this`timers
      ensures timers == old(timers)[ctx := QueueSpec.GetTimer(old(timers), ctx)]
    {
      if ctx !in timers {
        timers := timers[ctx := Timer(EPOCH, [])];
      } else {
        assert timers == timers[ctx := timers[ctx]];
      }
    }

    method UpdateTimer()
      requires Linked(nodes, ordered, expires, live, waiters, due) && Spare()
      modifies this`timers
      ensures View() == QueueSpec.UpdateTimer(old(View()))
      ensures Linked(nodes, ordered, expires, live, waiters, due) && Spare()
    {
      if expires == [] {
        timers := map[];
        return;
      }
      var earliest := expires[0];
      RearrangedIsByDeadline(waiters, due);
      var ctx := nodes[earliest.req].ioContext;
      GetTimer(ctx);
      timers := timers[ctx := ExpiresAt(timers[ctx], earliest.key)];
      timers := timers[ctx := AsyncWait(timers[ctx], earliest.key)];
    }

    /** The node a push uses: the first of the free list, or a new one when there is none. */
    method TakeNode() returns (n: NodeId)
      requires Linked(nodes, ordered, expires, live, waiters, due) && Spare() && |ordered| < capacity
      modifies this`nodes, this`orderedPool
      ensures Linked(nodes, ordered, expires, live, waiters, due)
      ensures n < |nodes| && n !in live && n !in orderedPool && nodes[n].request.None?
      ensures old(orderedPool) != [] ==>
                n == old(orderedPool)[0] && orderedPool == old(orderedPool)[1..] && nodes == old(nodes)
      ensures |ordered| + 1 + |orderedPool| == |nodes| <= capacity
      ensures FreeNodes(nodes, orderedPool, live)
    {
      if orderedPool == [] {
        assert |nodes| !in live;
        nodes := nodes + [ExpiringRequest(0, None, None, None)];
        return |nodes| - 1;
      }
      n := orderedPool[0];
      assert n in orderedPool;
      orderedPool := orderedPool[1..];
      assert forall m :: m in orderedPool ==> m in old(orderedPool);
    }

    /** Fills node n in and links it into both structures. */
    method Link(n: NodeId, ctx: IoContext, request: RequestId, expiresAt: Ticks, ghost w: Waiter)
      requires Linked(nodes, ordered, expires, live, waiters, due)
      requires w == Waiter(request, ctx, expiresAt, w.ticket) && forall v :: v in waiters ==> v.ticket < w.ticket
      requires n < |nodes| && n !in live && n !in orderedPool && FreeNodes(nodes, orderedPool, live)
      modifies this`nodes, this`ordered, this`expires, this`live, this`waiters, this`due, this`nextTicket
      ensures View() == old(View()).(waiters := old(waiters) + [w], nextTicket := old(nextTicket) + 1)
      ensures |nodes| == |old(nodes)| && ordered == old(ordered) + [n] && live == old(live)[n := w]
      ensures Linked(nodes, ordered, expires, live, waiters, due)
      ensures FreeNodes(nodes, orderedPool, live)
    {
      LinkedInsert(nodes, ordered, expires, live, waiters, due, n, w);
      ordered := ordered + [n];
      var entry := ExpiryEntry(expiresAt, n);
      var place := UpperBound(expires, expiresAt);
      due := due[..place] + [w] + due[place..];
      live, waiters, nextTicket := live[n := w], waiters + [w], nextTicket + 1;
      expires := expires[..place] + [entry] + expires[place..];
      nodes := nodes[n := ExpiringRequest(ctx, Some(request), Some(n), Some(entry))];
    }

    method Push(ctx: IoContext, wait: Ticks, request: RequestId, now: Ticks) returns (pushed: bool)
      requires Valid()
      modifies this
      ensures View() == QueueSpec.Push(old(View()), ctx, wait, request, now).0
      ensures pushed == QueueSpec.Push(old(View()), ctx, wait, request, now).1
      ensures Valid()
    {
      if |expires| >= capacity {
        return false;
      }
      var orderIt := TakeNode();
      var expiresAt := Add(now, wait);
      ghost var q := View();
      ghost var w := Waiter(request, ctx, expiresAt, nextTicket);
      Link(orderIt, ctx, request, expiresAt, w);
      UpdateTimer();
      assert View() == QueueSpec.Push(q, ctx, wait, request, now).0;
      PushKeepsInv(q, ctx, wait, request, now);
      return true;
    }

    /** Moves the handler out of the node of entry k and splices the node to the free list. The
        entry itself is left to the caller: `es` and `ds` are the multimap without the entries
        that are about to be erased. */
    method Unlink(n: NodeId, ghost es: seq<ExpiryEntry>, ghost ds: seq<Waiter>, ghost k: nat)
      returns (moved: QueuedValue)
      requires Linked(nodes, ordered, es, live, waiters, ds) && Spare()
      requires k < |es| == |ds| && es[k].req == n
      modifies this`nodes, this`ordered, this`orderedPool, this`live, this`waiters
      ensures moved == Queued(ds[k]) && waiters == Without(old(waiters), ds[k])
      ensures forall w :: w in waiters <==> w in old(waiters) && w != ds[k]
      ensures Linked(nodes, ordered, Cut(es, k), live, waiters, Cut(ds, k)) && Spare()
    {
      LinkedRemove(nodes, ordered, es, live, waiters, ds, k);
      FreeOne(nodes, orderedPool, live, n);
      var req := nodes[n];
      moved := QueuedValue(req.request.value, req.ioContext);
      nodes := nodes[n := req.(request := None)];
      orderedPool, ordered := [n] + orderedPool, Without(ordered, req.orderIt.value);
      live, waiters := live - {n}, Without(waiters, ds[k]);
    }

    /** Takes the first node of the order list out of both structures. */
    method UnlinkFirst() returns (moved: QueuedValue)
      requires Linked(nodes, ordered, expires, live, waiters, due) && Spare() && ordered != []
      modifies this`nodes, this`ordered, this`orderedPool, this`expires, this`live, this`waiters, this`due
      ensures old(waiters) != [] && moved == Queued(old(waiters)[0])
      ensures View() == old(View()).(waiters := old(waiters)[1..])
      ensures Linked(nodes, ordered, expires, live, waiters, due) && Spare()
    {
      var n := ordered[0];
      ghost var k := EntryOfFirst(nodes, ordered, expires, live, waiters, due);
      var expiresAtIt := nodes[n].expiresAtIt.value;
      moved := Unlink(n, expires, due, k);
      expires, due := Without(expires, expiresAtIt), Cut(due, k);
    }

    method Pop() returns (result: Option<QueuedValue>)
      requires Valid()
      modifies this
      ensures View() == QueueSpec.Pop(old(View())).0
      ensures result.Some? <==> old(View()).waiters != []
      ensures result.Some? ==> result.value == Queued(old(View()).waiters[0])
      ensures Valid()
    {
      if ordered == [] {
        return None;
      }
      ghost var q := View();
      var moved := UnlinkFirst();
      UpdateTimer();
      assert View() == QueueSpec.Pop(q).0;
      PopKeepsInv(q);
      return Some(moved);
    }

    /** The loop of cancel: moves the handlers out of the first `end` entries, in their order,
        and splices their nodes to the free list; then erases the entries. */
    method ExpireFirst(end: nat) returns (posted: seq<QueuedValue>)
      requires Linked(nodes, ordered, expires, live, waiters, due) && Spare() && end <= |due|
      modifies this`nodes, this`ordered, this`orderedPool, this`expires, this`live, this`waiters, this`due
      ensures posted == QueuedAll(old(due)[..end])
      ensures forall w :: w in waiters <==> w in old(waiters) && w !in old(due)[..end]
      ensures Linked(nodes, ordered, expires, live, waiters, due) && Spare()
    {
      posted := [];
      ghost var was := due;
      for i := 0 to end
        invariant expires == old(expires) && due == was
        invariant posted == QueuedAll(was[..i])
        invariant forall w :: w in waiters <==> w in old(waiters) && w !in was[..i]
        invariant Linked(nodes, ordered, expires[i..], live, waiters, was[i..]) && Spare()
      {
        var moved := Unlink(expires[i].req, expires[i..], was[i..], 0);
        posted := posted + [moved];
        OneMoreExpired(expires, was, i);
      }
      expires, due := expires[end..], due[end..];
    }

    /** What a wait on a timer calls when it completes: with an error if it was aborted. */
    method Cancel(aborted: bool, expiresAt: Ticks) returns (posted: seq<QueuedValue>)
      requires Valid()
      modifies this
      ensures View() == QueueSpec.Cancel(old(View()), aborted, expiresAt).0
      ensures posted == QueuedAll(QueueSpec.Cancel(old(View()), aborted, expiresAt).1)
      ensures Valid()
    {
      if aborted {
        return [];
      }
      ghost var q := View();
      var end := UpperBound(expires, expiresAt);
      BeyondUpperBound(expires, live, due, expiresAt);
      posted := ExpireFirst(end);
      assert Rearranged(waiters, due);
      TimedOut(q.waiters, waiters, old(due), end, expiresAt);
      assert View() == q.(waiters := Beyond(q.waiters, expiresAt));
      UpdateTimer();
      assert View() == QueueSpec.Cancel(q, false, expiresAt).0;
      CancelKeepsInv(q, false, expiresAt);
    }
  }

  lemma OneMoreExpired(expires: seq<ExpiryEntry>, due: seq<Waiter>, i: nat)
    requires i < |expires| == |due|
    ensures expires[i..][0] == expires[i] && due[i..][0] == due[i]
    ensures Cut(expires[i..], 0) == expires[i + 1..] && Cut(due[i..], 0) == due[i + 1..]
    ensures QueuedAll(due[..i + 1]) == QueuedAll(due[..i]) + [Queued(due[i])]
    ensures forall w :: w in due[..i + 1] <==> w in due[..i] || w == due[i]
  {
    assert due[..i + 1] == due[..i] + [due[i]];
  }

  // ---------- linking and unlinking one node ----------

  lemma ExpiringInsert(due: seq<Waiter>, w: Waiter, k: nat)
    requires Expiring(due) && k <= |due|
    requires forall j :: 0 <= j < |due| ==> due[j].ticket < w.ticket
    requires forall j :: 0 <= j < k ==> due[j].deadline <= w.deadline
    requires forall j :: k <= j < |due| ==> due[j].deadline > w.deadline
    ensures Expiring(due[..k] + [w] + due[k..])
  {
    var r := due[..k] + [w] + due[k..];
    forall i, j | 0 <= i < j < |r| ensures Before(r[i], r[j]) {
      if i == k {
        assert r[j] == due[j - 1];
      } else if j == k {
        assert r[i] == due[i];
      } else {
        assert Before(due[if i < k then i else i - 1], due[if j < k then j else j - 1]);
      }
    }
  }

  /** In a sorted multimap the keys behind the upper bound are beyond it. */
  lemma BeyondUpperBound(expires: seq<ExpiryEntry>, live: map<NodeId, Waiter>, due: seq<Waiter>, key: Ticks)
    requires InExpiry(expires, live, due) && Expiring(due)
    ensures forall j :: UpperBound(expires, key) <= j < |due| ==> due[j].deadline > key
    ensures forall j :: 0 <= j < UpperBound(expires, key) ==> due[j].deadline <= key
  {
    var k := UpperBound(expires, key);
    forall j | k <= j < |due| ensures due[j].deadline > key {
      assert j > k ==> Before(due[k], due[j]);
    }
  }

  lemma InExpiryInsert(expires: seq<ExpiryEntry>, live: map<NodeId, Waiter>, due: seq<Waiter>,
                       n: NodeId, w: Waiter, k: nat)
    requires InExpiry(expires, live, due) && n !in live && k <= |due|
    ensures InExpiry(expires[..k] + [ExpiryEntry(w.deadline, n)] + expires[k..], live[n := w],
                     due[..k] + [w] + due[k..])
  {
    var es, ds := expires[..k] + [ExpiryEntry(w.deadline, n)] + expires[k..], due[..k] + [w] + due[k..];
    forall j | 0 <= j < |es| && j != k
      ensures var i := if j < k then j else j - 1; es[j] == expires[i] && ds[j] == due[i]
    {
    }
  }

  lemma RearrangedInsert(waiters: seq<Waiter>, due: seq<Waiter>, w: Waiter, k: nat)
    requires Rearranged(waiters, due) && k <= |due|
    requires forall v :: v in waiters ==> v.ticket < w.ticket
    requires forall j :: 0 <= j < k ==> due[j].deadline <= w.deadline
    requires forall j :: k <= j < |due| ==> due[j].deadline > w.deadline
    ensures Rearranged(waiters + [w], due[..k] + [w] + due[k..])
  {
    forall j | 0 <= j < |due| ensures due[j].ticket < w.ticket {
      assert due[j] in due;
    }
    ExpiringInsert(due, w, k);
    InsertMembers(due, k, w);
    assert forall i :: 0 <= i < |waiters| ==> waiters[i] in waiters;
  }

  /** Linking a node at the end of the list and, by its deadline, into the multimap. */
  lemma LinkedInsert(nodes: seq<ExpiringRequest>, ordered: seq<NodeId>, expires: seq<ExpiryEntry>,
                     live: map<NodeId, Waiter>, waiters: seq<Waiter>, due: seq<Waiter>, n: NodeId, w: Waiter)
    requires Linked(nodes, ordered, expires, live, waiters, due)
    requires forall v :: v in waiters ==> v.ticket < w.ticket
    requires n < |nodes| && n !in live
    ensures var k := UpperBound(expires, w.deadline);
            Linked(nodes[n := Linking(w, n)], ordered + [n],
                   expires[..k] + [ExpiryEntry(w.deadline, n)] + expires[k..],
                   live[n := w], waiters + [w], due[..k] + [w] + due[k..])
  {
    var k := UpperBound(expires, w.deadline);
    BeyondUpperBound(expires, live, due, w.deadline);
    LiveInsert(nodes, ordered, live, waiters, n, w);
    RearrangedInsert(waiters, due, w, k);
    InExpiryInsert(expires, live, due, n, w, k);
  }

  lemma LiveInsert(nodes: seq<ExpiringRequest>, ordered: seq<NodeId>, live: map<NodeId, Waiter>,
                   waiters: seq<Waiter>, n: NodeId, w: Waiter)
    requires LiveNodes(nodes, ordered, live) && InOrder(ordered, live, waiters) && n < |nodes| && n !in live
    ensures LiveNodes(nodes[n := Linking(w, n)], ordered + [n], live[n := w])
    ensures InOrder(ordered + [n], live[n := w], waiters + [w])
  {
  }

  lemma FreeOne(nodes: seq<ExpiringRequest>, pool: seq<NodeId>, live: map<NodeId, Waiter>, n: NodeId)
    requires FreeNodes(nodes, pool, live) && n in live && n < |nodes|
    ensures FreeNodes(nodes[n := nodes[n].(request := None)], [n] + pool, live - {n})
  {
  }

  lemma AllDistinct(ordered: seq<NodeId>, expires: seq<ExpiryEntry>, live: map<NodeId, Waiter>,
                    waiters: seq<Waiter>, due: seq<Waiter>)
    requires InOrder(ordered, live, waiters) && InExpiry(expires, live, due) && Rearranged(waiters, due)
    ensures Distinct(ordered) && Distinct(expires) && Distinct(waiters) && Distinct(due)
  {
    assert Distinct(waiters);
    forall i, j | 0 <= i < j < |due| ensures due[i] != due[j] && expires[i] != expires[j] {
      assert Before(due[i], due[j]);
    }
    forall i, j | 0 <= i < j < |ordered| ensures ordered[i] != ordered[j] {
      assert waiters[i] != waiters[j];
    }
  }

  /** Entry k and the list node it names hold the same waiter. */
  lemma Places(ordered: seq<NodeId>, expires: seq<ExpiryEntry>, live: map<NodeId, Waiter>,
               waiters: seq<Waiter>, due: seq<Waiter>, k: nat) returns (i: nat)
    requires InOrder(ordered, live, waiters) && InExpiry(expires, live, due) && Rearranged(waiters, due)
    requires k < |due| && expires[k].req in ordered
    ensures i < |ordered| && ordered[i] == expires[k].req && waiters[i] == due[k]
  {
    i :| 0 <= i < |ordered| && ordered[i] == expires[k].req;
  }

  lemma RearrangedRemove(waiters: seq<Waiter>, due: seq<Waiter>, i: nat, k: nat)
    requires Rearranged(waiters, due) && Distinct(waiters) && Distinct(due)
    requires i < |waiters| && k < |due| && waiters[i] == due[k]
    ensures Rearranged(Cut(waiters, i), Cut(due, k))
  {
    CutMembers(waiters, i);
    CutMembers(due, k);
    assert Expiring(Cut(due, k));
  }

  lemma InOrderRemove(ordered: seq<NodeId>, live: map<NodeId, Waiter>, waiters: seq<Waiter>, i: nat)
    requires InOrder(ordered, live, waiters) && Distinct(ordered) && i < |ordered|
    ensures InOrder(Cut(ordered, i), live - {ordered[i]}, Cut(waiters, i))
  {
  }

  lemma InExpiryRemove(expires: seq<ExpiryEntry>, live: map<NodeId, Waiter>, due: seq<Waiter>, k: nat)
    requires InExpiry(expires, live, due) && Distinct(due) && k < |due|
    ensures InExpiry(Cut(expires, k), live - {expires[k].req}, Cut(due, k))
  {
    forall j | 0 <= j < |due| && j != k ensures expires[j].req != expires[k].req {
      assert if j < k then due[j] != due[k] else due[k] != due[j];
    }
  }

  lemma LiveNodesRemove(nodes: seq<ExpiringRequest>, ordered: seq<NodeId>, live: map<NodeId, Waiter>, i: nat)
    requires LiveNodes(nodes, ordered, live) && Distinct(ordered) && i < |ordered| && ordered[i] < |nodes|
    ensures var n := ordered[i];
            LiveNodes(nodes[n := nodes[n].(request := None)], Cut(ordered, i), live - {n})
  {
    CutMembers(ordered, i);
  }

  /** Taking a node out of both structures. */
  lemma LinkedRemove(nodes: seq<ExpiringRequest>, ordered: seq<NodeId>, expires: seq<ExpiryEntry>,
                     live: map<NodeId, Waiter>, waiters: seq<Waiter>, due: seq<Waiter>, k: nat)
    requires Linked(nodes, ordered, expires, live, waiters, due) && k < |due|
    ensures var n := expires[k].req;
            && n in live && n in ordered && n < |nodes| && nodes[n] == Linking(due[k], n) && due[k] in waiters
            && (forall w :: w in Without(waiters, due[k]) <==> w in waiters && w != due[k])
            && Linked(nodes[n := nodes[n].(request := None)], Without(ordered, n), Cut(expires, k), live - {n},
                      Without(waiters, due[k]), Cut(due, k))
  {
    var n := expires[k].req;
    var i := Places(ordered, expires, live, waiters, due, k);
    AllDistinct(ordered, expires, live, waiters, due);
    WithoutIsCut(ordered, i);
    WithoutIsCut(waiters, i);
    CutMembers(waiters, i);
    LiveNodesRemove(nodes, ordered, live, i);
    InOrderRemove(ordered, live, waiters, i);
    RearrangedRemove(waiters, due, i, k);
    InExpiryRemove(expires, live, due, k);
  }

  /** The multimap node of the first node in the list. */
  lemma EntryOfFirst(nodes: seq<ExpiringRequest>, ordered: seq<NodeId>, expires: seq<ExpiryEntry>,
                     live: map<NodeId, Waiter>, waiters: seq<Waiter>, due: seq<Waiter>) returns (k: nat)
    requires Linked(nodes, ordered, expires, live, waiters, due) && ordered != []
    ensures k < |expires| && expires[k].req == ordered[0] && due[k] == waiters[0]
    ensures nodes[ordered[0]].expiresAtIt == Some(expires[k])
    ensures Without(expires, expires[k]) == Cut(expires, k) && Without(waiters, due[k]) == waiters[1..]
  {
    assert waiters[0] in waiters;
    k :| 0 <= k < |due| && due[k] == waiters[0];
    var i := Places(ordered, expires, live, waiters, due, k);
    AllDistinct(ordered, expires, live, waiters, due);
    assert i == 0;
    WithoutIsCut(expires, k);
  }

  /** Once the entries up to the upper bound are gone, what is left and what was posted are
      exactly the waiters beyond the deadline and those up to it. */
  lemma TimedOut(before: seq<Waiter>, after: seq<Waiter>, due: seq<Waiter>, end: nat, t: Ticks)
    requires Rearranged(before, due) && end <= |due|
    requires forall j :: 0 <= j < end ==> due[j].deadline <= t
    requires forall j :: end <= j < |due| ==> due[j].deadline > t
    requires Arrival(after)
    requires forall w :: w in after <==> w in before && w !in due[..end]
    ensures after == Beyond(before, t)
    ensures due[..end] == ByDeadline(UpTo(before, t))
  {
    forall w ensures w in due[..end] <==> w in before && w.deadline <= t {
      assert w in before <==> w in due;
      assert due == due[..end] + due[end..];
    }
    BeyondKeepsArrival(before, t);
    UpToKeepsArrival(before, t);
    ArrivalOrderIsUnique(after, Beyond(before, t));
    ByDeadlineKeepsOrder(UpTo(before, t));
    forall w ensures w in ByDeadline(UpTo(before, t)) <==> w in due[..end] {
      DueMembers(UpTo(before, t), w);
    }
    ExpiryOrderIsUnique(due[..end], ByDeadline(UpTo(before, t)));
  }
}
