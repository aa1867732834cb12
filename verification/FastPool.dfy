/** The fast book's order pool as a value: intrusive doubly-linked queues and a LIFO free list over pool slots. */
module FastPools {
  import opened BookTypes
  import opened BookSpec
  import opened OrderedKeys
  import opened FastSides

  /** A pool slot: a resting order in its level's queue, or a link of the free list. */
  datatype FastOrder = FastOrder(next: u32, prev: u32, shares: Shares, price: Price, locate: Locate, side: u8)

  const BLANK := FastOrder(NO_ORDER, NO_ORDER, 0, 0, 0, 0)

  function DataOf(n: FastOrder): Order { Order(n.locate, n.side, n.price, n.shares) }

  /** The pool slot of the i-th order of a queue; NO_ORDER beyond either end. */
  function SlotIn(slots: map<Ref, u32>, q: seq<Ref>, i: int): u32 {
    if 0 <= i < |q| && q[i] in slots then slots[q[i]] else NO_ORDER
  }

  /** Every live order has a slot of its own holding its data and its reference. */
  ghost predicate NodesOk(pool: seq<FastOrder>, refs: seq<Ref>, slots: map<Ref, u32>, orders: map<Ref, Order>) {
    && slots.Keys == orders.Keys && |refs| == |pool| <= NO_ORDER
    && (forall r :: r in slots ==> slots[r] < |pool| && refs[slots[r]] == r && DataOf(pool[slots[r]]) == orders[r])
  }

  /** The links of the queue's orders spell the queue, forwards and backwards. */
  ghost predicate Linked(pool: seq<FastOrder>, slots: map<Ref, u32>, q: seq<Ref>) {
    forall i :: 0 <= i < |q| ==> LinkedAt(pool, slots, q, i)
  }

  ghost predicate LinkedAt(pool: seq<FastOrder>, slots: map<Ref, u32>, q: seq<Ref>, i: nat)
    requires i < |q|
  {
    && q[i] in slots && slots[q[i]] < |pool|
    && pool[slots[q[i]]].next == SlotIn(slots, q, i + 1)
    && pool[slots[q[i]]].prev == SlotIn(slots, q, i - 1)
  }

  ghost predicate LinksOk(pool: seq<FastOrder>, slots: map<Ref, u32>, queues: map<Key, seq<Ref>>) {
    forall k :: k in queues ==> Linked(pool, slots, queues[k])
  }

  /** `free` lists the free slots from the head of the free list on. */
  ghost predicate FreeOk(pool: seq<FastOrder>, free: seq<u32>, head: u32) {
    && Distinct(free) && head == (if free == [] then NO_ORDER else free[0])
    && (forall i :: 0 <= i < |free| ==> FreeAt(pool, free, i))
  }

  ghost predicate FreeAt(pool: seq<FastOrder>, free: seq<u32>, i: nat)
    requires i < |free|
  {
    free[i] < |pool| && pool[free[i]].next == NextFree(free, i)
  }

  function NextFree(free: seq<u32>, i: nat): u32 { if i + 1 < |free| then free[i + 1] else NO_ORDER }

  /** No live order sits in a free slot, and the two together make up the pool. */
  ghost predicate Apart(slots: map<Ref, u32>, free: seq<u32>, size: nat) {
    (forall r :: r in slots ==> slots[r] !in free) && |slots| + |free| == size
  }

  ghost predicate PoolOk(pool: seq<FastOrder>, refs: seq<Ref>, slots: map<Ref, u32>, b: Book,
                         free: seq<u32>, head: u32) {
    && WellFormed(b) && NodesOk(pool, refs, slots, b.orders) && LinksOk(pool, slots, b.queues)
    && FreeOk(pool, free, head) && Apart(slots, free, |pool|)
  }

  // ----- what the book writes -----

  /** Taking slot idx out of its queue: a neighbour that does not exist has no slot in the pool. */
  function Unlinked(pool: seq<FastOrder>, idx: nat): (r: seq<FastOrder>)
    requires idx < |pool|
    ensures |r| == |pool|
  {
    var o := pool[idx];
    var p1 := if o.prev < |pool| then pool[o.prev := pool[o.prev].(next := o.next)] else pool;
    var p2 := if o.next < |pool| then p1[o.next := p1[o.next].(prev := o.prev)] else p1;
    p2[idx := p2[idx].(next := NO_ORDER, prev := NO_ORDER)]
  }

  /** Putting slot idx at the head of the free list. */
  function Released(pool: seq<FastOrder>, idx: nat, head: u32): (r: seq<FastOrder>)
    requires idx < |pool|
    ensures |r| == |pool|
  {
    pool[idx := pool[idx].(next := head, prev := NO_ORDER, shares := 0)]
  }

  /** Filling slot idx with an order and linking it behind `tail`. */
  function Linking(pool: seq<FastOrder>, idx: u32, tail: u32, o: Order): (r: seq<FastOrder>)
    requires idx < |pool|
    ensures |r| == |pool|
  {
    var p1 := pool[idx := FastOrder(NO_ORDER, tail, o.shares, o.price, o.locate, o.side)];
    if tail < |pool| then p1[tail := p1[tail].(next := idx)] else p1
  }

  /** The level of a key, as its queue determines it. */
  ghost function LevelFrom(slots: map<Ref, u32>, b: Book, k: Key): FastLevel {
    var q := Queue(b, k);
    if q == [] then EMPTY
    else FastLevel(SumShares(b.orders, q), |q|, SlotIn(slots, q, 0), SlotIn(slots, q, |q| - 1))
  }

  // ----- removing an order -----

  /** The i-th order of a queue, and its neighbours' slots. */
  lemma Neighbours(pool: seq<FastOrder>, refs: seq<Ref>, slots: map<Ref, u32>, b: Book, free: seq<u32>, head: u32,
                   k: Key, i: nat)
    requires PoolOk(pool, refs, slots, b, free, head) && k in b.queues && i < |b.queues[k]|
    ensures var q := b.queues[k]; var o := pool[slots[q[i]]];
            && q[i] in slots && slots[q[i]] < |pool| && DataOf(o) == b.orders[q[i]]
            && o.prev == SlotIn(slots, q, i - 1) && o.next == SlotIn(slots, q, i + 1)
            && (o.prev == NO_ORDER <==> i == 0) && (o.next == NO_ORDER <==> i + 1 == |q|)
            && (o.prev == NO_ORDER || o.prev < |pool|) && (o.next == NO_ORDER || o.next < |pool|)
  {
    var q := b.queues[k];
    assert LinkedAt(pool, slots, q, i) && q[i] in q && Lists(b, k, q);
    if i > 0 { assert LinkedAt(pool, slots, q, i - 1); }
    if i + 1 < |q| { assert LinkedAt(pool, slots, q, i + 1); }
  }

  /** How removal leaves every slot: idx is free, its neighbours skip it, the rest is untouched. */
  ghost predicate Rewired(pool: seq<FastOrder>, pool': seq<FastOrder>, idx: nat, head: u32)
    requires idx < |pool|
  {
    var o := pool[idx];
    && |pool'| == |pool|
    && pool'[idx].next == head
    && (forall j :: 0 <= j < |pool| && j != idx ==>
          && pool'[j].next == (if j == o.prev then o.next else pool[j].next)
          && pool'[j].prev == (if j == o.next then o.prev else pool[j].prev)
          && DataOf(pool'[j]) == DataOf(pool[j]))
  }

  lemma RemovalRewires(pool: seq<FastOrder>, idx: nat, head: u32)
    requires idx < |pool| && pool[idx].prev != idx && pool[idx].next != idx
    ensures Rewired(pool, Released(Unlinked(pool, idx), idx, head), idx, head)
  {
  }

  lemma SlotsDiffer(pool: seq<FastOrder>, refs: seq<Ref>, slots: map<Ref, u32>, orders: map<Ref, Order>, x: Ref, y: Ref)
    requires NodesOk(pool, refs, slots, orders) && x in slots && y in slots && x != y
    ensures slots[x] != slots[y]
  {
    assert refs[slots[x]] == x && refs[slots[y]] == y;
  }

  lemma RemoveNodes(pool: seq<FastOrder>, pool': seq<FastOrder>, refs: seq<Ref>, slots: map<Ref, u32>,
                    orders: map<Ref, Order>, r: Ref, head: u32)
    requires NodesOk(pool, refs, slots, orders) && r in slots && Rewired(pool, pool', slots[r], head)
    ensures NodesOk(pool', refs, slots - {r}, orders - {r})
  {
    forall x | x in slots && x != r ensures DataOf(pool'[slots[x]]) == orders[x] {
      SlotsDiffer(pool, refs, slots, orders, x, r);
    }
  }

  /** Queues that do not contain the removed order or its neighbours keep their links. */
  lemma KeepLinks(pool: seq<FastOrder>, pool': seq<FastOrder>, slots: map<Ref, u32>, r: Ref, head: u32, q: seq<Ref>)
    requires r in slots && slots[r] < |pool| && Rewired(pool, pool', slots[r], head) && Linked(pool, slots, q)
    requires r !in q && forall x :: x in q ==> x in slots && slots[x] != slots[r]
    requires forall x :: x in q ==> slots[x] != pool[slots[r]].prev && slots[x] != pool[slots[r]].next
    ensures Linked(pool', slots - {r}, q)
  {
    var slots' := slots - {r};
    forall i | 0 <= i < |q| ensures LinkedAt(pool', slots', q, i) {
      assert LinkedAt(pool, slots, q, i);
      assert q[i] in q && (i + 1 < |q| ==> q[i + 1] in q) && (i > 0 ==> q[i - 1] in q);
    }
  }

  /** Slots of the queue after the order at place i is gone. */
  lemma SlotInClosed(slots: map<Ref, u32>, q: seq<Ref>, i: nat, j: int)
    requires i < |q| && Distinct(q) && -1 <= j < |q|
    ensures SlotIn(slots - {q[i]}, q[..i] + q[i + 1..], j) == SlotIn(slots, q, if j < i then j else j + 1)
  {
    if 0 <= j < |q| - 1 { assert (q[..i] + q[i + 1..])[j] == q[if j < i then j else j + 1]; }
  }

  /** One order of the queue that closes up; m is its old place. */
  lemma CloseLinkAt(pool: seq<FastOrder>, pool': seq<FastOrder>, refs: seq<Ref>, slots: map<Ref, u32>,
                    orders: map<Ref, Order>, q: seq<Ref>, i: nat, head: u32, m: nat)
    requires NodesOk(pool, refs, slots, orders) && Linked(pool, slots, q) && Distinct(q) && i < |q|
    requires q[i] in slots && slots[q[i]] < |pool| && Rewired(pool, pool', slots[q[i]], head) && m < |q| && m != i
    ensures LinkedAt(pool', slots - {q[i]}, q[..i] + q[i + 1..], if m < i then m else m - 1)
  {
    hide NodesOk, Linked;
    var j := if m < i then m else m - 1;
    assert (q[..i] + q[i + 1..])[j] == q[m];
    SlotInClosed(slots, q, i, j - 1);
    SlotInClosed(slots, q, i, j + 1);
    LinkedSlots(pool, slots, q, m);
    LinkedSlots(pool, slots, q, i);
    SlotsDiffer(pool, refs, slots, orders, q[m], q[i]);
    if i > 0 {
      LinkedSlots(pool, slots, q, i - 1);
      if m != i - 1 { SlotsDiffer(pool, refs, slots, orders, q[m], q[i - 1]); }
    }
    if i + 1 < |q| {
      LinkedSlots(pool, slots, q, i + 1);
      if m != i + 1 { SlotsDiffer(pool, refs, slots, orders, q[m], q[i + 1]); }
    }
    NotNone(pool, refs, slots, orders, q[m]);
  }

  lemma NotNone(pool: seq<FastOrder>, refs: seq<Ref>, slots: map<Ref, u32>, orders: map<Ref, Order>, r: Ref)
    requires NodesOk(pool, refs, slots, orders) && r in slots
    ensures slots[r] < |pool| && slots[r] != NO_ORDER
  {
  }

  lemma LinkedSlots(pool: seq<FastOrder>, slots: map<Ref, u32>, q: seq<Ref>, i: nat)
    requires Linked(pool, slots, q) && i < |q|
    ensures LinkedAt(pool, slots, q, i)
  {
  }

  /** The queue of the removed order closes up. */
  lemma CloseLinks(pool: seq<FastOrder>, pool': seq<FastOrder>, refs: seq<Ref>, slots: map<Ref, u32>,
                   orders: map<Ref, Order>, q: seq<Ref>, i: nat, head: u32)
    requires NodesOk(pool, refs, slots, orders) && Linked(pool, slots, q) && Distinct(q) && i < |q|
    requires q[i] in slots && slots[q[i]] < |pool| && Rewired(pool, pool', slots[q[i]], head)
    ensures Linked(pool', slots - {q[i]}, q[..i] + q[i + 1..])
  {
    hide NodesOk, Distinct, Rewired, LinkedAt;
    var q', slots' := q[..i] + q[i + 1..], slots - {q[i]};
    forall j | 0 <= j < |q'| ensures LinkedAt(pool', slots', q', j) {
      CloseLinkAt(pool, pool', refs, slots, orders, q, i, head, if j < i then j else j + 1);
    }
  }

  lemma FreeLater(pool: seq<FastOrder>, pool': seq<FastOrder>, free: seq<u32>, idx: u32, head: u32, i: nat)
    requires i < |free| && FreeAt(pool, free, i) && idx < |pool| && Rewired(pool, pool', idx, head)
    requires free[i] != idx && free[i] != pool[idx].prev
    ensures FreeAt(pool', [idx] + free, i + 1)
  {
    assert ([idx] + free)[i + 1] == free[i] && NextFree([idx] + free, i + 1) == NextFree(free, i);
  }

  lemma FreeOne(pool: seq<FastOrder>, pool': seq<FastOrder>, free: seq<u32>, head: u32, idx: u32)
    requires FreeOk(pool, free, head) && idx < |pool| && idx !in free && Rewired(pool, pool', idx, head)
    requires pool[idx].prev !in free
    ensures FreeOk(pool', [idx] + free, idx)
  {
    hide Rewired, FreeAt;
    var free' := [idx] + free;
    forall i | 0 <= i < |free'| ensures FreeAt(pool', free', i) {
      if i == 0 {
        FreeFirst(pool, pool', free, head, idx);
      } else {
        assert free[i - 1] in free;
        FreeLater(pool, pool', free, idx, head, i - 1);
      }
    }
  }

  lemma FreeFirst(pool: seq<FastOrder>, pool': seq<FastOrder>, free: seq<u32>, head: u32, idx: u32)
    requires idx < |pool| && Rewired(pool, pool', idx, head) && head == if free == [] then NO_ORDER else free[0]
    ensures FreeAt(pool', [idx] + free, 0)
  {
  }

  lemma RemoveOtherLinks(pool: seq<FastOrder>, pool': seq<FastOrder>, refs: seq<Ref>, slots: map<Ref, u32>, b: Book,
                         r: Ref, i: nat, head: u32, k: Key)
    requires WellFormed(b) && NodesOk(pool, refs, slots, b.orders) && LinksOk(pool, slots, b.queues) && r in b.orders
    requires r in slots && slots[r] < |pool| && Rewired(pool, pool', slots[r], head)
    requires var q := Queue(b, KeyOf(b.orders[r])); i < |q| && q[i] == r
    requires k in b.queues && k != KeyOf(b.orders[r])
    ensures Linked(pool', slots - {r}, b.queues[k])
  {
    hide Linked, Rewired, KeyOf, WellFormed, NodesOk, LinksOk, Distinct;
    var k0 := KeyOf(b.orders[r]);
    var q := Queue(b, k0);
    SlotsAreOrders(pool, refs, slots, b.orders);
    QueueFacts(pool, slots, b, k);
    QueueFacts(pool, slots, b, k0);
    LinkedSlots(pool, slots, q, i);
    assert (i > 0 ==> q[i - 1] in q) && (i + 1 < |q| ==> q[i + 1] in q);
    forall x | x in b.queues[k]
      ensures x != r && x in slots && slots[x] != slots[r]
      ensures slots[x] != SlotIn(slots, q, i - 1) && slots[x] != SlotIn(slots, q, i + 1)
    {
      NotNone(pool, refs, slots, b.orders, x);
      SlotsDiffer(pool, refs, slots, b.orders, x, r);
      if i > 0 { SlotsDiffer(pool, refs, slots, b.orders, x, q[i - 1]); }
      if i + 1 < |q| { SlotsDiffer(pool, refs, slots, b.orders, x, q[i + 1]); }
    }
    KeepLinks(pool, pool', slots, r, head, b.queues[k]);
  }

  lemma SetQueueLinks(pool: seq<FastOrder>, slots: map<Ref, u32>, queues: map<Key, seq<Ref>>, k0: Key, q: seq<Ref>)
    requires forall k :: k in queues && k != k0 ==> Linked(pool, slots, queues[k])
    requires Linked(pool, slots, q)
    ensures LinksOk(pool, slots, SetQueue(queues, k0, q))
  {
    hide Linked;
  }

  lemma RemoveLinks(pool: seq<FastOrder>, pool': seq<FastOrder>, refs: seq<Ref>, slots: map<Ref, u32>, b: Book,
                    r: Ref, i: nat, head: u32)
    requires WellFormed(b) && NodesOk(pool, refs, slots, b.orders) && LinksOk(pool, slots, b.queues) && r in b.orders
    requires r in slots && slots[r] < |pool| && Rewired(pool, pool', slots[r], head)
    requires var q := Queue(b, KeyOf(b.orders[r])); i < |q| && q[i] == r
    ensures LinksOk(pool', slots - {r}, Erase(b, r).queues)
  {
    hide Linked, Rewired, Without, NodesOk, KeyOf, Distinct, WellFormed, LinksOk;
    SlotsAreOrders(pool, refs, slots, b.orders);
    var k := KeyOf(b.orders[r]);
    var q := Queue(b, k);
    OwnQueue(b, r);
    WithoutAt(q, i);
    QueueFacts(pool, slots, b, k);
    NotNone(pool, refs, slots, b.orders, r);
    forall k' | k' in b.queues && k' != k ensures Linked(pool', slots - {r}, b.queues[k']) {
      RemoveOtherLinks(pool, pool', refs, slots, b, r, i, head, k');
    }
    CloseLinks(pool, pool', refs, slots, b.orders, q, i, head);
    SetQueueLinks(pool', slots - {r}, b.queues, k, q[..i] + q[i + 1..]);
  }

  /** The removed slot is shared with no other order, and its neighbours are not free. */
  lemma NeighboursLive(pool: seq<FastOrder>, refs: seq<Ref>, slots: map<Ref, u32>, b: Book, free: seq<u32>, head: u32,
                       r: Ref, i: nat)
    requires PoolOk(pool, refs, slots, b, free, head) && r in slots && r in b.orders && slots[r] < |pool|
    requires var q := Queue(b, KeyOf(b.orders[r])); i < |q| && q[i] == r
    ensures forall x :: x in slots && x != r ==> slots[x] != slots[r]
    ensures slots[r] !in free
    ensures var o := pool[slots[r]]; o.prev != slots[r] && o.next != slots[r] && o.prev !in free
  {
    hide NodesOk, LinksOk, FreeOk, WellFormed, KeyOf, Distinct;
    var q := Queue(b, KeyOf(b.orders[r]));
    SlotsAreOrders(pool, refs, slots, b.orders);
    PoolFits(pool, refs, slots, b.orders);
    FreeInside(pool, free, head);
    QueueFacts(pool, slots, b, KeyOf(b.orders[r]));
    Neighbours(pool, refs, slots, b, free, head, KeyOf(b.orders[r]), i);
    assert (i > 0 ==> q[i - 1] in q) && (i + 1 < |q| ==> q[i + 1] in q);
    if i > 0 { PairDiffers(q, i - 1, i); SlotsDiffer(pool, refs, slots, b.orders, q[i - 1], r); }
    if i + 1 < |q| { PairDiffers(q, i, i + 1); SlotsDiffer(pool, refs, slots, b.orders, q[i + 1], r); }
    forall x | x in slots && x != r ensures slots[x] != slots[r] { SlotsDiffer(pool, refs, slots, b.orders, x, r); }
  }

  lemma PairDiffers(q: seq<Ref>, i: nat, j: nat)
    requires Distinct(q) && i < j < |q|
    ensures q[i] != q[j]
  {
  }

  lemma FreeInside(pool: seq<FastOrder>, free: seq<u32>, head: u32)
    requires FreeOk(pool, free, head)
    ensures forall f :: f in free ==> f < |pool|
  {
    forall i | 0 <= i < |free| ensures free[i] < |pool| { assert FreeAt(pool, free, i); }
  }

  lemma RemoveApart(slots: map<Ref, u32>, free: seq<u32>, size: nat, r: Ref)
    requires Apart(slots, free, size) && r in slots
    requires forall x :: x in slots && x != r ==> slots[x] != slots[r]
    ensures Apart(slots - {r}, [slots[r]] + free, size)
  {
    assert |slots - {r}| == |slots| - 1;
  }

  lemma SlotInside(pool: seq<FastOrder>, refs: seq<Ref>, slots: map<Ref, u32>, b: Book, free: seq<u32>, head: u32,
                   r: Ref)
    requires PoolOk(pool, refs, slots, b, free, head)
    ensures r in slots <==> r in b.orders
    ensures r in slots ==> slots[r] < |pool| && DataOf(pool[slots[r]]) == b.orders[r]
  {
  }

  /** Unlinking an order and freeing its slot is what erasing it from the book means for the pool. */
  lemma RemoveOrder(pool: seq<FastOrder>, refs: seq<Ref>, slots: map<Ref, u32>, b: Book, free: seq<u32>, head: u32,
                    r: Ref)
    requires PoolOk(pool, refs, slots, b, free, head) && r in slots && r in b.orders && slots[r] < |pool|
    ensures PoolOk(Released(Unlinked(pool, slots[r]), slots[r], head), refs, slots - {r}, Erase(b, r),
                   [slots[r]] + free, slots[r])
  {
    hide Released, Unlinked, Rewired, WellFormed, NodesOk, Linked, LinksOk, FreeOk, Distinct, Apart, KeyOf;
    OwnQueue(b, r);
    var idx, k := slots[r], KeyOf(b.orders[r]);
    var i := Find(b.queues[k], r);
    Neighbours(pool, refs, slots, b, free, head, k, i);
    NeighboursLive(pool, refs, slots, b, free, head, r, i);
    RemovalRewires(pool, idx, head);
    EraseWellFormed(b, r);
    var pool' := Released(Unlinked(pool, idx), idx, head);
    RemoveNodes(pool, pool', refs, slots, b.orders, r, head);
    RemoveLinks(pool, pool', refs, slots, b, r, i, head);
    FreeOne(pool, pool', free, head, idx);
    RemoveApart(slots, free, |pool|, r);
  }

  // ----- adding an order -----

  /** How adding leaves every slot: idx holds the order behind `tail`, which now points at it. */
  ghost predicate Grown(pool: seq<FastOrder>, pool': seq<FastOrder>, idx: u32, tail: u32, o: Order)
    requires idx < |pool|
  {
    && |pool'| == |pool|
    && pool'[idx].next == NO_ORDER && pool'[idx].prev == tail && DataOf(pool'[idx]) == o
    && (forall j :: 0 <= j < |pool| && j != idx ==>
          && pool'[j].next == (if j == tail then idx else pool[j].next)
          && pool'[j].prev == pool[j].prev && DataOf(pool'[j]) == DataOf(pool[j]))
  }

  lemma LinkingGrows(pool: seq<FastOrder>, idx: u32, tail: u32, o: Order)
    requires idx < |pool| && tail != idx
    ensures Grown(pool, Linking(pool, idx, tail, o), idx, tail, o)
  {
  }

  lemma AddNodes(pool: seq<FastOrder>, pool': seq<FastOrder>, refs: seq<Ref>, slots: map<Ref, u32>,
                 orders: map<Ref, Order>, r: Ref, idx: u32, tail: u32, o: Order)
    requires NodesOk(pool, refs, slots, orders) && idx < |pool| && Grown(pool, pool', idx, tail, o)
    requires r !in orders && forall x :: x in slots ==> slots[x] != idx
    ensures NodesOk(pool', refs[idx := r], slots[r := idx], orders[r := o])
  {
  }

  /** Queues other than the grown one keep their links. */
  lemma KeepLinksOnAdd(pool: seq<FastOrder>, pool': seq<FastOrder>, slots: map<Ref, u32>, r: Ref, idx: u32, tail: u32,
                       o: Order, q: seq<Ref>)
    requires idx < |pool| && Grown(pool, pool', idx, tail, o) && Linked(pool, slots, q)
    requires r !in q && forall x :: x in q && x in slots ==> slots[x] != idx && slots[x] != tail
    ensures Linked(pool', slots[r := idx], q)
  {
    var slots' := slots[r := idx];
    forall i | 0 <= i < |q| ensures LinkedAt(pool', slots', q, i) {
      assert LinkedAt(pool, slots, q, i);
      assert q[i] in q && (i + 1 < |q| ==> q[i + 1] in q) && (i > 0 ==> q[i - 1] in q);
    }
  }

  lemma SlotInExtended(slots: map<Ref, u32>, q: seq<Ref>, r: Ref, idx: u32, i: int)
    requires r !in slots && -1 <= i <= |q| && forall x :: x in q ==> x in slots
    ensures SlotIn(slots[r := idx], q + [r], i) == if i == |q| then idx else SlotIn(slots, q, i)
  {
    if 0 <= i < |q| { assert (q + [r])[i] == q[i] && q[i] in q; }
  }

  lemma ExtendLinkAt(pool: seq<FastOrder>, pool': seq<FastOrder>, refs: seq<Ref>, slots: map<Ref, u32>,
                     orders: map<Ref, Order>, q: seq<Ref>, r: Ref, idx: u32, o: Order, i: nat)
    requires NodesOk(pool, refs, slots, orders) && Linked(pool, slots, q) && Distinct(q) && r !in slots
    requires idx < |pool| && Grown(pool, pool', idx, SlotIn(slots, q, |q| - 1), o)
    requires forall x :: x in slots ==> slots[x] != idx
    requires forall x :: x in q ==> x in slots
    requires i <= |q|
    ensures LinkedAt(pool', slots[r := idx], q + [r], i)
  {
    hide NodesOk, Linked;
    assert (q + [r])[i] == if i < |q| then q[i] else r;
    SlotInExtended(slots, q, r, idx, i - 1);
    if i < |q| {
      SlotInExtended(slots, q, r, idx, i + 1);
      LinkedSlots(pool, slots, q, i);
      if i + 1 < |q| {
        LinkedSlots(pool, slots, q, |q| - 1);
        SlotsDiffer(pool, refs, slots, orders, q[i], q[|q| - 1]);
      }
    }
  }

  /** The grown queue ends with the new order. */
  lemma ExtendLinks(pool: seq<FastOrder>, pool': seq<FastOrder>, refs: seq<Ref>, slots: map<Ref, u32>,
                    orders: map<Ref, Order>, q: seq<Ref>, r: Ref, idx: u32, o: Order)
    requires NodesOk(pool, refs, slots, orders) && Linked(pool, slots, q) && Distinct(q) && r !in slots
    requires idx < |pool| && Grown(pool, pool', idx, SlotIn(slots, q, |q| - 1), o)
    requires forall x :: x in slots ==> slots[x] != idx
    requires forall x :: x in q ==> x in slots
    ensures Linked(pool', slots[r := idx], q + [r])
  {
    hide NodesOk, Distinct, Grown, LinkedAt, SlotIn;
    var q', slots' := q + [r], slots[r := idx];
    forall i | 0 <= i < |q'| ensures LinkedAt(pool', slots', q', i) {
      ExtendLinkAt(pool, pool', refs, slots, orders, q, r, idx, o, i);
    }
  }

  lemma UseOne(pool: seq<FastOrder>, pool': seq<FastOrder>, free: seq<u32>, head: u32, tail: u32, o: Order)
    requires FreeOk(pool, free, head) && free != [] && head < |pool| && Grown(pool, pool', head, tail, o)
    requires tail !in free
    ensures FreeOk(pool', free[1..], pool[head].next)
  {
    var free' := free[1..];
    assert FreeAt(pool, free, 0);
    forall i | 0 <= i < |free'| ensures FreeAt(pool', free', i) {
      assert FreeAt(pool, free, i + 1) && free'[i] == free[i + 1] && free[i + 1] in free;
      assert NextFree(free', i) == NextFree(free, i + 1);
    }
  }

  lemma SlotsAreOrders(pool: seq<FastOrder>, refs: seq<Ref>, slots: map<Ref, u32>, orders: map<Ref, Order>)
    requires NodesOk(pool, refs, slots, orders)
    ensures slots.Keys == orders.Keys
  {
  }

  lemma QueueFacts(pool: seq<FastOrder>, slots: map<Ref, u32>, b: Book, k: Key)
    requires WellFormed(b) && LinksOk(pool, slots, b.queues)
    ensures var q := Queue(b, k); Distinct(q) && Linked(pool, slots, q) && Lists(b, k, q)
  {
  }

  lemma AddOtherLinks(pool: seq<FastOrder>, pool': seq<FastOrder>, refs: seq<Ref>, slots: map<Ref, u32>, b: Book,
                      r: Ref, idx: u32, o: Order, k: Key)
    requires WellFormed(b) && NodesOk(pool, refs, slots, b.orders) && LinksOk(pool, slots, b.queues) && r !in b.orders
    requires var q := Queue(b, KeyOf(o)); idx < |pool| && Grown(pool, pool', idx, SlotIn(slots, q, |q| - 1), o)
    requires forall x :: x in slots ==> slots[x] != idx
    requires k in b.queues && k != KeyOf(o)
    ensures Linked(pool', slots[r := idx], b.queues[k])
  {
    hide Linked, Grown, KeyOf, WellFormed, NodesOk, LinksOk, Distinct;
    var k0 := KeyOf(o);
    var q := Queue(b, k0);
    var tail := SlotIn(slots, q, |q| - 1);
    SlotsAreOrders(pool, refs, slots, b.orders);
    QueueFacts(pool, slots, b, k);
    QueueFacts(pool, slots, b, k0);
    assert q != [] ==> q[|q| - 1] in q;
    forall x | x in b.queues[k] ensures x != r && x in slots && slots[x] != idx && slots[x] != tail {
      if q != [] { SlotsDiffer(pool, refs, slots, b.orders, x, q[|q| - 1]); }
      NotNone(pool, refs, slots, b.orders, x);
    }
    KeepLinksOnAdd(pool, pool', slots, r, idx, tail, o, b.queues[k]);
  }

  lemma AddLinks(pool: seq<FastOrder>, pool': seq<FastOrder>, refs: seq<Ref>, slots: map<Ref, u32>, b: Book,
                 r: Ref, idx: u32, o: Order)
    requires WellFormed(b) && NodesOk(pool, refs, slots, b.orders) && LinksOk(pool, slots, b.queues) && r !in b.orders
    requires var q := Queue(b, KeyOf(o)); idx < |pool| && Grown(pool, pool', idx, SlotIn(slots, q, |q| - 1), o)
    requires forall x :: x in slots ==> slots[x] != idx
    ensures LinksOk(pool', slots[r := idx], Append(b, r, o).queues)
  {
    hide Linked, Grown, KeyOf, Distinct, WellFormed, NodesOk, LinksOk;
    var k0 := KeyOf(o);
    var q := Queue(b, k0);
    QueueFacts(pool, slots, b, k0);
    SlotsAreOrders(pool, refs, slots, b.orders);
    ExtendLinks(pool, pool', refs, slots, b.orders, q, r, idx, o);
    forall k | k in b.queues && k != k0 ensures Linked(pool', slots[r := idx], b.queues[k]) {
      AddOtherLinks(pool, pool', refs, slots, b, r, idx, o, k);
    }
    SetQueueLinks(pool', slots[r := idx], b.queues, k0, q + [r]);
  }

  lemma AddApart(pool: seq<FastOrder>, slots: map<Ref, u32>, free: seq<u32>, head: u32, r: Ref)
    requires Apart(slots, free, |pool|) && r !in slots && free != [] && FreeOk(pool, free, head)
    ensures Apart(slots[r := free[0]], free[1..], |pool|)
  {
    assert |slots[r := free[0]]| == |slots| + 1;
    assert free == [free[0]] + free[1..];
  }

  /** Filling the first free slot and linking it at the back is what appending to the book means for the pool. */
  lemma AddOrder(pool: seq<FastOrder>, refs: seq<Ref>, slots: map<Ref, u32>, b: Book, free: seq<u32>, head: u32,
                 r: Ref, o: Order)
    requires PoolOk(pool, refs, slots, b, free, head) && r !in b.orders && r !in slots && free != []
    requires head < |pool| == |refs|
    ensures var q := Queue(b, KeyOf(o));
            PoolOk(Linking(pool, head, SlotIn(slots, q, |q| - 1), o), refs[head := r], slots[r := head],
                   Append(b, r, o), free[1..], pool[head].next)
  {
    hide Linking, Grown, Linked, LinksOk, NodesOk, FreeOk, Distinct, KeyOf, WellFormed, Apart;
    var q := Queue(b, KeyOf(o));
    var tail := SlotIn(slots, q, |q| - 1);
    TailLive(pool, refs, slots, b, free, head, KeyOf(o));
    LinkingGrows(pool, head, tail, o);
    var pool' := Linking(pool, head, tail, o);
    AppendWellFormed(b, r, o);
    AddNodes(pool, pool', refs, slots, b.orders, r, head, tail, o);
    AddLinks(pool, pool', refs, slots, b, r, head, o);
    UseOne(pool, pool', free, head, tail, o);
    AddApart(pool, slots, free, head, r);
  }

  lemma TailLive(pool: seq<FastOrder>, refs: seq<Ref>, slots: map<Ref, u32>, b: Book, free: seq<u32>, head: u32, k: Key)
    requires PoolOk(pool, refs, slots, b, free, head)
    ensures var q := Queue(b, k); var tail := SlotIn(slots, q, |q| - 1);
            && tail !in free && (tail == NO_ORDER <==> q == []) && (tail == NO_ORDER || tail < |pool|)
            && (free != [] ==> tail != head)
    ensures forall x :: x in slots ==> slots[x] !in free
    ensures free != [] ==> head == free[0] && head < |pool| && forall x :: x in slots ==> slots[x] != head
    ensures head == NO_ORDER <==> free == []
  {
    hide NodesOk, LinksOk, FreeOk, WellFormed, Distinct;
    var q := Queue(b, k);
    SlotsAreOrders(pool, refs, slots, b.orders);
    PoolFits(pool, refs, slots, b.orders);
    FreeInside(pool, free, head);
    FreeHead(pool, free, head);
    QueueFacts(pool, slots, b, k);
    if q != [] {
      assert q[|q| - 1] in q;
      NotNone(pool, refs, slots, b.orders, q[|q| - 1]);
    }
  }

  lemma FreeHead(pool: seq<FastOrder>, free: seq<u32>, head: u32)
    requires FreeOk(pool, free, head)
    ensures head == (if free == [] then NO_ORDER else free[0]) && (free != [] ==> head in free)
  {
  }

  /** Two pools with the same links. */
  ghost predicate SameLinks(pool: seq<FastOrder>, pool': seq<FastOrder>) {
    |pool'| == |pool| && forall j :: 0 <= j < |pool| ==> pool'[j].next == pool[j].next && pool'[j].prev == pool[j].prev
  }

  lemma SameLinksKeep(pool: seq<FastOrder>, pool': seq<FastOrder>, slots: map<Ref, u32>, queues: map<Key, seq<Ref>>,
                      free: seq<u32>, head: u32)
    requires SameLinks(pool, pool') && LinksOk(pool, slots, queues) && FreeOk(pool, free, head)
    ensures LinksOk(pool', slots, queues) && FreeOk(pool', free, head)
  {
    forall k, i | k in queues && 0 <= i < |queues[k]| ensures LinkedAt(pool', slots, queues[k], i) {
      LinkedSlots(pool, slots, queues[k], i);
    }
    forall i | 0 <= i < |free| ensures FreeAt(pool', free, i) { assert FreeAt(pool, free, i); }
  }

  lemma DeductNodes(pool: seq<FastOrder>, refs: seq<Ref>, slots: map<Ref, u32>, orders: map<Ref, Order>, r: Ref,
                    left: Shares)
    requires NodesOk(pool, refs, slots, orders) && r in slots && r in orders && slots[r] < |pool|
    ensures NodesOk(pool[slots[r] := pool[slots[r]].(shares := left)], refs, slots,
                    orders[r := orders[r].(shares := left)])
  {
    forall x | x in slots && x != r ensures slots[x] != slots[r] { SlotsDiffer(pool, refs, slots, orders, x, r); }
  }

  /** Lowering an order's size touches nothing else. */
  lemma DeductOrder(pool: seq<FastOrder>, refs: seq<Ref>, slots: map<Ref, u32>, b: Book, free: seq<u32>, head: u32,
                    r: Ref, taken: Shares)
    requires PoolOk(pool, refs, slots, b, free, head) && r in slots && r in b.orders && slots[r] < |pool|
    requires taken <= b.orders[r].shares
    ensures PoolOk(pool[slots[r] := pool[slots[r]].(shares := b.orders[r].shares - taken)], refs, slots,
                   Deduct(b, r, taken), free, head)
  {
    hide NodesOk, LinksOk, FreeOk, WellFormed, Apart;
    var pool' := pool[slots[r] := pool[slots[r]].(shares := b.orders[r].shares - taken)];
    SameLinksKeep(pool, pool', slots, b.queues, free, head);
    DeductWellFormed(b, r, taken);
    DeductNodes(pool, refs, slots, b.orders, r, b.orders[r].shares - taken);
  }

  // ----- levels -----

  /** A level after an order of the given size has been unlinked from it; o is the order's slot before that. */
  function UnlinkedLevel(lvl: FastLevel, size: nat, o: FastOrder): FastLevel
    requires lvl.shares >= size && lvl.orders > 0
  {
    FastLevel(lvl.shares - size, lvl.orders - 1,
              if o.prev != NO_ORDER then lvl.head else o.next,
              if o.next != NO_ORDER then lvl.tail else o.prev)
  }

  /** A level after an order has been linked at its back in slot idx. */
  function GrownLevel(lvl: FastLevel, size: nat, idx: u32): FastLevel {
    FastLevel(lvl.shares + size, lvl.orders + 1, if lvl.tail != NO_ORDER then lvl.head else idx, idx)
  }

  /** A level whose queue keeps its orders, their sizes and their slots is unchanged. */
  lemma SameLevel(slots: map<Ref, u32>, slots': map<Ref, u32>, b: Book, b': Book, k: Key)
    requires Queue(b', k) == Queue(b, k)
    requires forall x :: x in Queue(b, k) ==> ShareOf(b.orders, x) == ShareOf(b'.orders, x)
    requires forall x :: x in Queue(b, k) ==> x in slots && x in slots' && slots[x] == slots'[x]
    ensures LevelFrom(slots', b', k) == LevelFrom(slots, b, k)
  {
    SumFrame(b.orders, b'.orders, Queue(b, k));
  }

  lemma OtherLevelAfterErase(slots: map<Ref, u32>, b: Book, r: Ref, k: Key)
    requires WellFormed(b) && r in b.orders && slots.Keys == b.orders.Keys && k != KeyOf(b.orders[r])
    ensures LevelFrom(slots - {r}, Erase(b, r), k) == LevelFrom(slots, b, k)
  {
    assert Lists(b, k, Queue(b, k));
    SameLevel(slots, slots - {r}, b, Erase(b, r), k);
  }

  lemma QueueSlots(slots: map<Ref, u32>, b: Book, k: Key)
    requires WellFormed(b) && slots.Keys == b.orders.Keys
    requires forall x :: x in slots ==> slots[x] != NO_ORDER
    ensures var q := Queue(b, k); forall i :: 0 <= i < |q| ==> SlotIn(slots, q, i) != NO_ORDER
  {
    var q := Queue(b, k);
    assert Lists(b, k, q);
    forall i | 0 <= i < |q| ensures SlotIn(slots, q, i) != NO_ORDER { assert q[i] in q; }
  }

  lemma OwnLevelAfterErase(slots: map<Ref, u32>, b: Book, r: Ref, o: FastOrder, i: nat)
    requires WellFormed(b) && r in b.orders && slots.Keys == b.orders.Keys
    requires forall x :: x in slots ==> slots[x] != NO_ORDER
    requires var q := Queue(b, KeyOf(b.orders[r])); i < |q| && q[i] == r
    requires var q := Queue(b, KeyOf(b.orders[r]));
             o.prev == SlotIn(slots, q, i - 1) && o.next == SlotIn(slots, q, i + 1)
    ensures var lvl := LevelFrom(slots, b, KeyOf(b.orders[r]));
            && lvl.shares >= b.orders[r].shares && lvl.orders > 0
            && LevelFrom(slots - {r}, Erase(b, r), KeyOf(b.orders[r])) == UnlinkedLevel(lvl, b.orders[r].shares, o)
  {
    hide WellFormed, Distinct, KeyOf, Without, Erase, Lists;
    OwnQueue(b, r);
    var k := KeyOf(b.orders[r]);
    var q := b.queues[k];
    WithoutAt(q, i);
    SumAfterErase(b.orders, q, r);
    QueueAfterErase(b, r);
    SlotInClosed(slots, q, i, 0);
    SlotInClosed(slots, q, i, |q| - 2);
    ErasedOrders(b, r);
    QueueSlots(slots, b, k);
  }

  lemma OtherLevelAfterAppend(slots: map<Ref, u32>, b: Book, r: Ref, o: Order, idx: u32, k: Key)
    requires WellFormed(b) && r !in b.orders && slots.Keys == b.orders.Keys && k != KeyOf(o)
    ensures LevelFrom(slots[r := idx], Append(b, r, o), k) == LevelFrom(slots, b, k)
  {
    assert Lists(b, k, Queue(b, k));
    SameLevel(slots, slots[r := idx], b, Append(b, r, o), k);
  }

  lemma OwnLevelAfterAppend(slots: map<Ref, u32>, b: Book, r: Ref, o: Order, idx: u32)
    requires WellFormed(b) && r !in b.orders && slots.Keys == b.orders.Keys
    requires forall x :: x in slots ==> slots[x] != NO_ORDER
    ensures LevelFrom(slots[r := idx], Append(b, r, o), KeyOf(o)) ==
            GrownLevel(LevelFrom(slots, b, KeyOf(o)), o.shares, idx)
    ensures var q := Queue(b, KeyOf(o)); LevelFrom(slots, b, KeyOf(o)).tail == SlotIn(slots, q, |q| - 1)
  {
    var k, slots', b' := KeyOf(o), slots[r := idx], Append(b, r, o);
    var q := Queue(b, k);
    assert Lists(b, k, q);
    assert Queue(b', k) == q + [r];
    SumConcat(b'.orders, q, [r]);
    assert [r][1..] == [];
    SumFrame(b.orders, b'.orders, q);
    SlotInExtended(slots, q, r, idx, 0);
    SlotInExtended(slots, q, r, idx, |q|);
    if q != [] { assert q[|q| - 1] in q; }
  }

  lemma LevelsAfterDeduct(slots: map<Ref, u32>, b: Book, r: Ref, taken: Shares, k: Key)
    requires WellFormed(b) && r in b.orders && slots.Keys == b.orders.Keys && taken <= b.orders[r].shares
    ensures var lvl, lvl' := LevelFrom(slots, b, k), LevelFrom(slots, Deduct(b, r, taken), k);
            if k == KeyOf(b.orders[r]) then lvl.shares >= taken && lvl' == lvl.(shares := lvl.shares - taken)
            else lvl' == lvl
  {
    var b', q := Deduct(b, r, taken), Queue(b, k);
    assert Lists(b, k, q);
    if k != KeyOf(b.orders[r]) {
      SameLevel(slots, slots, b, b', k);
    } else {
      OwnQueue(b, r);
      SumWithout(b.orders, q, r);
      SumWithout(b'.orders, q, r);
      WithoutMembers(q, r);
      SumFrame(b.orders, b'.orders, Without(q, r));
    }
  }

  /** All that erasing order r needs to know, and what it leaves. */
  lemma EraseFacts(pool: seq<FastOrder>, refs: seq<Ref>, slots: map<Ref, u32>, b: Book, free: seq<u32>, head: u32,
                   r: Ref)
    requires PoolOk(pool, refs, slots, b, free, head) && r in slots
    ensures r in b.orders && slots[r] < |pool| <= NO_ORDER && DataOf(pool[slots[r]]) == b.orders[r]
    ensures var n := pool[slots[r]];
            (n.prev == NO_ORDER || n.prev < |pool|) && (n.next == NO_ORDER || n.next < |pool|)
    ensures var n := pool[slots[r]]; var lvl := LevelFrom(slots, b, KeyOf(b.orders[r]));
            && lvl.orders > 0 && n.shares <= lvl.shares
            && (lvl.orders == 1 ==> UnlinkedLevel(lvl, n.shares, n) == EMPTY)
            && LevelFrom(slots - {r}, Erase(b, r), KeyOf(b.orders[r])) == UnlinkedLevel(lvl, n.shares, n)
    ensures forall k :: k != KeyOf(b.orders[r]) ==> LevelFrom(slots - {r}, Erase(b, r), k) == LevelFrom(slots, b, k)
    ensures PoolOk(Released(Unlinked(pool, slots[r]), slots[r], head), refs, slots - {r}, Erase(b, r),
                   [slots[r]] + free, slots[r])
  {
    hide Released, Unlinked, WellFormed, NodesOk, LinksOk, FreeOk, Distinct, Apart, KeyOf, Erase, Queue;
    SlotInside(pool, refs, slots, b, free, head, r);
    SlotsAreOrders(pool, refs, slots, b.orders);
    PoolFits(pool, refs, slots, b.orders);
    OwnQueue(b, r);
    var k := KeyOf(b.orders[r]);
    var i := Find(b.queues[k], r);
    QueueIs(b, k);
    Neighbours(pool, refs, slots, b, free, head, k, i);
    OwnLevelAfterErase(slots, b, r, pool[slots[r]], i);
    forall j | j != k ensures LevelFrom(slots - {r}, Erase(b, r), j) == LevelFrom(slots, b, j) {
      OtherLevelAfterErase(slots, b, r, j);
    }
    EmptyLevels(slots - {r}, Erase(b, r), k);
    RemoveOrder(pool, refs, slots, b, free, head, r);
  }

  lemma QueueIs(b: Book, k: Key)
    requires k in b.queues
    ensures Queue(b, k) == b.queues[k]
  {
  }

  lemma EmptyLevels(slots: map<Ref, u32>, b: Book, k: Key)
    ensures LevelFrom(slots, b, k).orders == 0 ==> LevelFrom(slots, b, k) == EMPTY
  {
  }

  lemma PoolFits(pool: seq<FastOrder>, refs: seq<Ref>, slots: map<Ref, u32>, orders: map<Ref, Order>)
    requires NodesOk(pool, refs, slots, orders)
    ensures |refs| == |pool| <= NO_ORDER
    ensures forall x :: x in slots ==> slots[x] != NO_ORDER
  {
  }

  /** All that lowering order r by `taken` shares leaves. */
  lemma DeductFacts(pool: seq<FastOrder>, refs: seq<Ref>, slots: map<Ref, u32>, b: Book, free: seq<u32>, head: u32,
                    r: Ref, taken: Shares)
    requires PoolOk(pool, refs, slots, b, free, head) && r in slots && r in b.orders && slots[r] < |pool|
    requires taken <= b.orders[r].shares
    ensures var n := pool[slots[r]];
            && n.shares == b.orders[r].shares
            && PoolOk(pool[slots[r] := n.(shares := n.shares - taken)], refs, slots, Deduct(b, r, taken), free, head)
    ensures forall k :: var lvl, lvl' := LevelFrom(slots, b, k), LevelFrom(slots, Deduct(b, r, taken), k);
              if k == KeyOf(b.orders[r]) then lvl.shares >= taken && lvl' == lvl.(shares := lvl.shares - taken)
              else lvl' == lvl
  {
    hide WellFormed, NodesOk, LinksOk, FreeOk, Apart, LevelFrom, Deduct;
    SlotInside(pool, refs, slots, b, free, head, r);
    SlotsAreOrders(pool, refs, slots, b.orders);
    DeductOrder(pool, refs, slots, b, free, head, r, taken);
    forall k ensures var lvl, lvl' := LevelFrom(slots, b, k), LevelFrom(slots, Deduct(b, r, taken), k);
                     if k == KeyOf(b.orders[r]) then lvl.shares >= taken && lvl' == lvl.(shares := lvl.shares - taken)
                     else lvl' == lvl
    {
      LevelsAfterDeduct(slots, b, r, taken, k);
    }
  }

  /** All that adding order r in the first free slot leaves. */
  lemma AddFacts(pool: seq<FastOrder>, refs: seq<Ref>, slots: map<Ref, u32>, b: Book, free: seq<u32>, head: u32,
                 r: Ref, o: Order)
    requires PoolOk(pool, refs, slots, b, free, head) && r !in b.orders && free != []
    ensures head < |pool| && |refs| == |pool| <= NO_ORDER && r !in slots
    ensures var tail := LevelFrom(slots, b, KeyOf(o)).tail;
            && (tail == NO_ORDER || tail < |pool|) && tail != head
            && PoolOk(Linking(pool, head, tail, o), refs[head := r], slots[r := head], Append(b, r, o),
                      free[1..], pool[head].next)
    ensures LevelFrom(slots[r := head], Append(b, r, o), KeyOf(o)) ==
              GrownLevel(LevelFrom(slots, b, KeyOf(o)), o.shares, head)
    ensures forall k :: k != KeyOf(o) ==> LevelFrom(slots[r := head], Append(b, r, o), k) == LevelFrom(slots, b, k)
  {
    hide Linking, WellFormed, NodesOk, LinksOk, FreeOk, Distinct, Apart, KeyOf, Append, Queue;
    SlotsAreOrders(pool, refs, slots, b.orders);
    PoolFits(pool, refs, slots, b.orders);
    TailLive(pool, refs, slots, b, free, head, KeyOf(o));
    OwnLevelAfterAppend(slots, b, r, o, head);
    forall k | k != KeyOf(o) ensures LevelFrom(slots[r := head], Append(b, r, o), k) == LevelFrom(slots, b, k) {
      OtherLevelAfterAppend(slots, b, r, o, head, k);
    }
    AddOrder(pool, refs, slots, b, free, head, r, o);
  }

  lemma IndexedExactly(pool: seq<FastOrder>, refs: seq<Ref>, slots: map<Ref, u32>, b: Book, free: seq<u32>, head: u32,
                       r: Ref)
    requires PoolOk(pool, refs, slots, b, free, head)
    ensures r in slots <==> r in b.orders
    ensures r in slots ==> slots[r] < |pool| && slots[r] != NO_ORDER
  {
    SlotsAreOrders(pool, refs, slots, b.orders);
    PoolFits(pool, refs, slots, b.orders);
    SlotInside(pool, refs, slots, b, free, head, r);
  }

  // ----- a new pool -----

  lemma PushFree(pool: seq<FastOrder>, free: seq<u32>, head: u32, idx: u32)
    requires FreeOk(pool, free, head) && idx < |pool| && idx !in free
    ensures FreeOk(pool[idx := pool[idx].(next := head)], [idx] + free, idx)
  {
    var pool', free' := pool[idx := pool[idx].(next := head)], [idx] + free;
    forall i | 0 <= i < |free'| ensures FreeAt(pool', free', i) {
      if i > 0 {
        assert FreeAt(pool, free, i - 1) && free'[i] == free[i - 1] && free[i - 1] in free;
        assert NextFree(free', i) == NextFree(free, i - 1);
      }
    }
  }

  lemma EmptyPool(pool: seq<FastOrder>, refs: seq<Ref>, free: seq<u32>, head: u32)
    requires FreeOk(pool, free, head) && |free| == |pool| == |refs| <= NO_ORDER
    ensures PoolOk(pool, refs, map[], EMPTY_BOOK, free, head)
    ensures forall k :: LevelFrom(map[], EMPTY_BOOK, k) == EMPTY
  {
    hide FreeOk;
    var none: map<Ref, u32> := map[];
    assert |none| == 0;
  }

  lemma OrderInSlot(pool: seq<FastOrder>, refs: seq<Ref>, slots: map<Ref, u32>, b: Book, free: seq<u32>, head: u32,
                    r: Ref)
    requires PoolOk(pool, refs, slots, b, free, head) && r in slots && r in b.orders
    ensures slots[r] < |pool| && DataOf(pool[slots[r]]) == b.orders[r]
  {
    SlotInside(pool, refs, slots, b, free, head, r);
  }

  /** The free list is empty exactly when as many orders are live as the pool holds. */
  lemma FreeCount(pool: seq<FastOrder>, refs: seq<Ref>, slots: map<Ref, u32>, b: Book, free: seq<u32>, head: u32)
    requires PoolOk(pool, refs, slots, b, free, head)
    ensures |slots| == |b.orders| <= |pool| <= NO_ORDER
    ensures head == NO_ORDER <==> free == []
    ensures head == NO_ORDER <==> |b.orders| == |pool|
    ensures head == NO_ORDER || head < |pool|
  {
    hide NodesOk, LinksOk, FreeOk, WellFormed;
    SlotsAreOrders(pool, refs, slots, b.orders);
    PoolFits(pool, refs, slots, b.orders);
    FreeInside(pool, free, head);
    FreeHead(pool, free, head);
    assert |slots| == |slots.Keys| == |b.orders.Keys| == |b.orders|;
  }

  /** The best occupied level is the best key of the book. */
  lemma BestFromLevels(levels: Key -> FastLevel, slots: map<Ref, u32>, b: Book, locate: Locate, buy: bool,
                       have: bool, out: Price)
    requires Proper(b.queues) && forall k :: levels(k) == LevelFrom(slots, b, k)
    requires have ==> levels(Key(locate, buy, out)).orders != 0
    requires forall p: Price :: levels(Key(locate, buy, p)).orders != 0 ==> have && AtLeastAsGood(buy, out, p)
    ensures BookSpec.Best(b, locate, buy) == if have then Some(out) else None
  {
    forall k ensures levels(k).orders != 0 <==> k in b.queues {}
    if have {
      assert IsBest(b, locate, buy, out);
    } else {
      forall p: Price ensures !IsBest(b, locate, buy, p) { assert levels(Key(locate, buy, p)).orders == 0; }
    }
  }

  /** What a walk along a level's queue meets at its j-th order. */
  lemma WalkStep(pool: seq<FastOrder>, refs: seq<Ref>, slots: map<Ref, u32>, b: Book, free: seq<u32>, head: u32,
                 k: Key, j: nat)
    requires PoolOk(pool, refs, slots, b, free, head) && k in b.queues && j < |b.queues[k]|
    ensures var q := b.queues[k]; var s := SlotIn(slots, q, j);
            && q[j] in b.orders && s != NO_ORDER && s < |pool| == |refs| && refs[s] == q[j]
            && pool[s].next == SlotIn(slots, q, j + 1) && pool[s].prev == SlotIn(slots, q, j - 1)
            && pool[s].shares == b.orders[q[j]].shares
  {
    Neighbours(pool, refs, slots, b, free, head, k, j);
    SlotInside(pool, refs, slots, b, free, head, b.queues[k][j]);
  }

  lemma LevelPresent(pool: seq<FastOrder>, refs: seq<Ref>, slots: map<Ref, u32>, b: Book, free: seq<u32>, head: u32,
                     k: Key)
    requires PoolOk(pool, refs, slots, b, free, head)
    ensures k in b.queues <==> LevelFrom(slots, b, k).orders != 0
    ensures k in b.queues <==> Queue(b, k) != []
  {
  }

  lemma PoolWellFormed(pool: seq<FastOrder>, refs: seq<Ref>, slots: map<Ref, u32>, b: Book, free: seq<u32>, head: u32)
    requires PoolOk(pool, refs, slots, b, free, head)
    ensures WellFormed(b)
  {
  }

  // ----- nothing of the pool is lost -----

  ghost function UpTo(n: nat): (all: set<nat>)
    ensures |all| == n && forall i: nat :: i in all <==> i < n
  {
    if n == 0 then {} else UpTo(n - 1) + {n - 1}
  }

  ghost function SetOf(q: seq<u32>): (all: set<nat>)
    ensures forall i: u32 :: i in all <==> i in q
    ensures forall i :: i in all ==> i in q
  {
    if q == [] then {} else {q[0]} + SetOf(q[1..])
  }

  lemma {:induction false} SetOfSize(q: seq<u32>)
    requires Distinct(q)
    ensures |SetOf(q)| == |q|
  {
    if q != [] {
      SetOfSize(q[1..]);
      assert q[0] !in SetOf(q[1..]);
    }
  }

  ghost predicate OneEach(slots: map<Ref, u32>) {
    forall x, y :: x in slots && y in slots && x != y ==> slots[x] != slots[y]
  }

  /** The slots some orders take, one for each. */
  lemma {:induction false} TakenSlots(slots: map<Ref, u32>, rs: set<Ref>) returns (taken: set<nat>)
    requires OneEach(slots) && rs <= slots.Keys
    ensures |taken| == |rs| && forall i :: i in taken <==> exists r :: r in rs && slots[r] == i
    decreases |rs|
  {
    if rs == {} {
      taken := {};
    } else {
      var r :| r in rs;
      var rest := TakenSlots(slots, rs - {r});
      taken := rest + {slots[r]};
      assert slots[r] !in rest;
    }
  }

  lemma OnesOwn(pool: seq<FastOrder>, refs: seq<Ref>, slots: map<Ref, u32>, orders: map<Ref, Order>)
    requires NodesOk(pool, refs, slots, orders)
    ensures OneEach(slots) && forall r :: r in slots ==> slots[r] < |pool|
  {
    forall x, y | x in slots && y in slots && x != y ensures slots[x] != slots[y] {
      SlotsDiffer(pool, refs, slots, orders, x, y);
    }
  }

  lemma FreeSize(pool: seq<FastOrder>, free: seq<u32>, head: u32)
    requires FreeOk(pool, free, head)
    ensures |SetOf(free)| == |free|
  {
    SetOfSize(free);
  }

  lemma TakenOrFree(pool: seq<FastOrder>, refs: seq<Ref>, slots: map<Ref, u32>, b: Book, free: seq<u32>, head: u32,
                    i: u32)
    requires PoolOk(pool, refs, slots, b, free, head) && i < |pool|
    ensures i in free || exists r :: r in slots && slots[r] == i
  {
    hide LinksOk, WellFormed, NodesOk, FreeOk;
    FreeInside(pool, free, head);
    OnesOwn(pool, refs, slots, b.orders);
    FreeSize(pool, free, head);
    var taken := TakenSlots(slots, slots.Keys);
    Covered(taken, SetOf(free), |pool|);
  }

  /** Every slot is on the free list or holds a live order, and never both. */
  lemma SlotsPartition(pool: seq<FastOrder>, refs: seq<Ref>, slots: map<Ref, u32>, b: Book, free: seq<u32>, head: u32,
                       i: u32)
    requires PoolOk(pool, refs, slots, b, free, head) && i < |pool|
    ensures |refs| == |pool| && (i in free <==> !(refs[i] in slots && slots[refs[i]] == i))
    ensures i !in free ==> refs[i] in b.orders && DataOf(pool[i]) == b.orders[refs[i]]
  {
    hide LinksOk, WellFormed, FreeOk;
    TakenOrFree(pool, refs, slots, b, free, head, i);
    if i !in free {
      var r :| r in slots && slots[r] == i;
    }
  }

  lemma Covered(taken: set<nat>, spare: set<nat>, n: nat)
    requires |taken| + |spare| == n && taken !! spare && forall x :: x in taken + spare ==> x < n
    ensures forall x: nat :: x < n ==> x in taken || x in spare
  {
    assert |taken + spare| == |taken| + |spare|;
    NoBigger(taken + spare, UpTo(n));
  }
}
