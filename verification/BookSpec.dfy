/** The book as a mathematical value: what every message means, independently of either
    implementation's data structures. Both books are proved to follow it. */
module BookSpec {
  import opened BookTypes
  import opened OrderedKeys

  datatype Order = Order(locate: Locate, side: u8, price: Price, shares: Shares)

  /** One price level of one side of one symbol. */
  datatype Key = Key(locate: Locate, buy: bool, price: Price)

  function KeyOf(o: Order): Key { Key(o.locate, o.side == BUY, o.price) }

  /** Live orders by reference, and the arrival-order queue of every level that is not empty. */
  datatype Book = Book(orders: map<Ref, Order>, queues: map<Key, seq<Ref>>)

  const EMPTY_BOOK := Book(map[], map[])

  function Queue(b: Book, k: Key): seq<Ref> { if k in b.queues then b.queues[k] else [] }

  ghost predicate Distinct<T>(q: seq<T>) { forall i, j :: 0 <= i < j < |q| ==> q[i] != q[j] }

  /** Every live order waits in the queue of its own level. */
  ghost predicate Homed(b: Book) {
    forall r :: r in b.orders ==> r in Queue(b, KeyOf(b.orders[r]))
  }

  /** No queue is empty or lists an order twice. */
  ghost predicate Proper(queues: map<Key, seq<Ref>>) {
    forall k :: k in queues ==> queues[k] != [] && Distinct(queues[k])
  }

  /** A queue lists live orders of its own level only. */
  ghost predicate Lists(b: Book, k: Key, q: seq<Ref>) {
    forall r :: r in q ==> r in b.orders && KeyOf(b.orders[r]) == k
  }

  ghost predicate WellFormed(b: Book) {
    && Homed(b) && Proper(b.queues)
    && forall k :: k in b.queues ==> Lists(b, k, b.queues[k])
  }

  function ShareOf(orders: map<Ref, Order>, r: Ref): nat { if r in orders then orders[r].shares else 0 }

  function SumShares(orders: map<Ref, Order>, q: seq<Ref>): nat {
    if q == [] then 0 else ShareOf(orders, q[0]) + SumShares(orders, q[1..])
  }

  function SnapshotOf(b: Book, k: Key): Snapshot {
    if k in b.queues then Snapshot(true, SumShares(b.orders, b.queues[k]), |b.queues[k]|, b.queues[k]) else ABSENT
  }

  /** No live order is of size zero. */
  ghost predicate Positive(b: Book) { forall r :: r in b.orders ==> b.orders[r].shares > 0 }

  ghost predicate PositiveAt(b: Book, k: Key) {
    forall r :: r in Queue(b, k) && r in b.orders ==> b.orders[r].shares > 0
  }

  // ----- operations -----

  function Without(q: seq<Ref>, r: Ref): seq<Ref> {
    if q == [] then [] else if q[0] == r then q[1..] else [q[0]] + Without(q[1..], r)
  }

  function SetQueue(queues: map<Key, seq<Ref>>, k: Key, q: seq<Ref>): map<Key, seq<Ref>> {
    if q == [] then queues - {k} else queues[k := q]
  }

  /** Takes an order out of the book and out of its level's queue. */
  function Erase(b: Book, r: Ref): Book
    requires r in b.orders
  {
    var k := KeyOf(b.orders[r]);
    Book(b.orders - {r}, SetQueue(b.queues, k, Without(Queue(b, k), r)))
  }

  /** Puts a new order at the back of its level's queue. */
  function Append(b: Book, r: Ref, o: Order): Book {
    var k := KeyOf(o);
    Book(b.orders[r := o], b.queues[k := Queue(b, k) + [r]])
  }

  /** Lowers one order's size in place: its queue position does not move. */
  function Deduct(b: Book, r: Ref, taken: Shares): Book
    requires r in b.orders && taken <= b.orders[r].shares
  {
    b.(orders := b.orders[r := b.orders[r].(shares := b.orders[r].shares - taken)])
  }

  // ----- best prices and observations -----

  ghost predicate IsBest(b: Book, locate: Locate, buy: bool, p: Price) {
    && Key(locate, buy, p) in b.queues
    && forall q: Price :: Key(locate, buy, q) in b.queues ==> AtLeastAsGood(buy, p, q)
  }

  ghost function Best(b: Book, locate: Locate, buy: bool): Option<Price> {
    if exists p :: IsBest(b, locate, buy, p) then var p :| IsBest(b, locate, buy, p); Some(p) else None
  }

  /** What one look at the inside of a symbol shows. */
  datatype Observation = OneSided | Apart | LockedAt | CrossedAt

  ghost function Observe(b: Book, locate: Locate): Observation {
    var bid, ask := Best(b, locate, true), Best(b, locate, false);
    if bid == None || ask == None then OneSided
    else if bid.value > ask.value then CrossedAt
    else if bid.value == ask.value then LockedAt
    else Apart
  }

  function CountObservation(c: Counters, o: Observation): Counters {
    match o
    case CrossedAt => c.(crossed := c.crossed + 1)
    case LockedAt => c.(locked := c.locked + 1)
    case _ => c
  }

  // ----- one message -----

  datatype State = State(book: Book, counters: Counters, afterHours: bool)

  const INITIAL := State(EMPTY_BOOK, ZERO_COUNTERS, false)

  ghost function Look(s: State, locate: Locate): State {
    s.(counters := CountObservation(s.counters, Observe(s.book, locate)))
  }

  /** A live duplicate reference is counted and the incoming order wins. */
  function EraseDuplicate(s: State, r: Ref): State {
    if r in s.book.orders
    then s.(book := Erase(s.book, r), counters := s.counters.(duplicateAdd := s.counters.duplicateAdd + 1))
    else s
  }

  ghost function AddStep(s: State, r: Ref, o: Order): State {
    var s1 := EraseDuplicate(s, r);
    Look(s1.(book := Append(s1.book, r, o)), o.locate)
  }

  /** Deducts up to the resting size; an order that reaches zero leaves the book. */
  function ReduceStep(s: State, r: Ref, qty: Shares): State
    requires r in s.book.orders
  {
    var o, c := s.book.orders[r], s.counters;
    var taken := if qty > o.shares then o.shares else qty;
    var c1 := if qty > o.shares then c.(overExecute := c.overExecute + 1) else c;
    if taken == o.shares
    then s.(book := Erase(s.book, r), counters := c1.(removedAtZero := c1.removedAtZero + 1))
    else s.(book := Deduct(s.book, r, taken), counters := c1)
  }

  /** Remove, then add at the back of the queue with the retained symbol and side, then a second look: at the symbol
      named, or at the retained one when none is. */
  ghost function ReplaceStep(s: State, oldRef: Ref, newRef: Ref, price: Price, shares: Shares,
                             look: Option<Locate>): State {
    if oldRef !in s.book.orders then s.(counters := s.counters.(orphanReplace := s.counters.orphanReplace + 1))
    else
      var prior := s.book.orders[oldRef];
      var s1 := AddStep(s.(book := Erase(s.book, oldRef)), newRef, Order(prior.locate, prior.side, price, shares));
      Look(s1, if look.Some? then look.value else prior.locate)
  }

  /** The effect of a message. A replace ends with a second look at a locate code; the fast book
      looks at the one retained from the order, the reference book at the one in the message. */
  ghost function Step(s: State, m: Message, lookAtRetained: bool): State {
    var s1 := s.(counters := CountMessage(s.counters, s.afterHours));
    match m
    case SystemEvent(code) => s.(afterHours := s.afterHours || code == 'E' as u8)
    case StockDirectory(_) => s
    case TradingAction(_, _) => s
    case OperationalHalt(_, _, _) => s
    case Add(locate, ref, side, price, shares) => AddStep(s1, ref, Order(locate, side, price, shares))
    case Reduce(kind, locate, ref, qty) =>
      Look(if ref in s1.book.orders then ReduceStep(s1, ref, qty)
           else s1.(counters := CountOrphan(s1.counters, kind)), locate)
    case Delete(locate, ref) =>
      Look(if ref in s1.book.orders then s1.(book := Erase(s1.book, ref))
           else s1.(counters := s1.counters.(orphanDelete := s1.counters.orphanDelete + 1)), locate)
    case Replace(locate, oldRef, newRef, price, shares) =>
      ReplaceStep(s1, oldRef, newRef, price, shares, if lookAtRetained then None else Some(locate))
    case Trade(_, _) => s1
    case CrossTrade(_, shares) =>
      if shares == 0 then s1.(counters := s1.counters.(zeroShareCross := s1.counters.zeroShareCross + 1)) else s1
    case BrokenTrade(_) => s1
  }

  /** The book without a reference, if it is live. */
  function Spared(b: Book, r: Ref): Book { if r in b.orders then Erase(b, r) else b }

  /** What a replace leaves. */
  function AfterReplacing(b: Book, m: Message): Book
    requires m.Replace? && m.oldRef in b.orders
  {
    var prior := b.orders[m.oldRef];
    Append(Spared(Erase(b, m.oldRef), m.newRef), m.newRef, Order(prior.locate, prior.side, m.price, m.shares))
  }

  /** What a message does to the book alone, whatever the counters. */
  function BookStep(b: Book, m: Message): Book {
    match m
    case Add(locate, ref, side, price, shares) => Append(Spared(b, ref), ref, Order(locate, side, price, shares))
    case Reduce(_, _, ref, qty) =>
      if ref !in b.orders then b
      else if qty >= b.orders[ref].shares then Erase(b, ref)
      else Deduct(b, ref, qty)
    case Delete(_, ref) => Spared(b, ref)
    case Replace(_, oldRef, _, _, _) => if oldRef in b.orders then AfterReplacing(b, m) else b
    case _ => b
  }

  lemma StepBook(s: State, m: Message, lookAtRetained: bool)
    ensures Step(s, m, lookAtRetained).book == BookStep(s.book, m)
  {
    hide Observe, Erase, Append, Deduct;
  }

  /** The state after a whole run. The two readings differ in the second look of a replace. */
  ghost function Replayed(run: seq<Message>, lookAtRetained: bool): State {
    if run == [] then INITIAL else Step(Replayed(run[..|run| - 1], lookAtRetained), run[|run| - 1], lookAtRetained)
  }

  lemma ReplayedOneMore(run: seq<Message>, n: nat, lookAtRetained: bool)
    requires n < |run|
    ensures Replayed(run[..n + 1], lookAtRetained) == Step(Replayed(run[..n], lookAtRetained), run[n], lookAtRetained)
  {
    assert run[..n + 1][..n] == run[..n];
  }

  // ----- capacity -----

  /** A book with room for `capacity` orders of symbols below `symbols` refuses an add beyond either. */
  predicate Refuses(b: Book, r: Ref, locate: Locate, capacity: nat, symbols: nat) {
    locate >= symbols || (r !in b.orders && |b.orders| >= capacity)
  }

  predicate RefusesMessage(b: Book, m: Message, capacity: nat, symbols: nat) {
    m.Add? && Refuses(b, m.ref, m.locate, capacity, symbols)
  }

  // ----- facts about queues -----

  lemma {:induction false} NoBigger<T>(a: set<T>, b: set<T>)
    requires a <= b
    ensures |a| <= |b| && (|a| == |b| ==> a == b)
  {
    if a == {} {
      assert b != {} ==> |b| > 0;
    } else {
      var x :| x in a;
      NoBigger(a - {x}, b - {x});
    }
  }

  lemma {:induction false} SumConcat(orders: map<Ref, Order>, a: seq<Ref>, b: seq<Ref>)
    ensures SumShares(orders, a + b) == SumShares(orders, a) + SumShares(orders, b)
  {
    if a == [] {
      assert a + b == b;
    } else {
      SumConcat(orders, a[1..], b);
      assert (a + b)[1..] == a[1..] + b;
    }
  }

  lemma SumOneMore(orders: map<Ref, Order>, q: seq<Ref>, n: nat)
    requires n < |q|
    ensures SumShares(orders, q[..n + 1]) == SumShares(orders, q[..n]) + ShareOf(orders, q[n])
  {
    SumConcat(orders, q[..n], [q[n]]);
    assert q[..n + 1] == q[..n] + [q[n]] && [q[n]][1..] == [];
  }

  lemma {:induction false} SumFrame(o: map<Ref, Order>, o': map<Ref, Order>, q: seq<Ref>)
    requires forall r :: r in q ==> ShareOf(o, r) == ShareOf(o', r)
    ensures SumShares(o, q) == SumShares(o', q)
  {
    if q != [] {
      SumFrame(o, o', q[1..]);
    }
  }

  /** Removing a reference from a queue without repeats closes up around its position. */
  lemma {:induction false} WithoutAt(q: seq<Ref>, i: nat)
    requires i < |q| && Distinct(q)
    ensures Without(q, q[i]) == q[..i] + q[i + 1..]
  {
    if i > 0 {
      WithoutAt(q[1..], i - 1);
      assert q[1..][i - 1] == q[i];
      assert q[..i] + q[i + 1..] == [q[0]] + (q[1..][..i - 1] + q[1..][i..]);
    }
  }

  lemma Find(q: seq<Ref>, r: Ref) returns (i: nat)
    requires r in q
    ensures i < |q| && q[i] == r
  {
    i :| 0 <= i < |q| && q[i] == r;
  }

  lemma WithoutMembers(q: seq<Ref>, r: Ref)
    requires r in q && Distinct(q)
    ensures Distinct(Without(q, r)) && |Without(q, r)| == |q| - 1
    ensures forall x :: x in Without(q, r) <==> x in q && x != r
  {
    var i := Find(q, r);
    WithoutAt(q, i);
    var q' := Without(q, r);
    forall x | x in q && x != r ensures x in q' {
      var j := Find(q, x);
      assert x == if j < i then q'[j] else q'[j - 1];
    }
  }

  lemma {:induction false} SumWithout(orders: map<Ref, Order>, q: seq<Ref>, r: Ref)
    requires r in q && Distinct(q)
    ensures SumShares(orders, Without(q, r)) == SumShares(orders, q) - ShareOf(orders, r)
  {
    var i := Find(q, r);
    WithoutAt(q, i);
    SumConcat(orders, q[..i], q[i + 1..]);
    SumConcat(orders, q[..i], q[i..]);
    assert q[..i] + q[i..] == q;
  }

  // ----- well-formedness is kept -----

  lemma KeyOfOrder(o: Order)
    ensures KeyOf(o).locate == o.locate
  {
  }

  lemma OwnQueue(b: Book, r: Ref)
    requires WellFormed(b) && r in b.orders
    ensures var k := KeyOf(b.orders[r]); k in b.queues && r in b.queues[k] && Distinct(b.queues[k])
    ensures var k := KeyOf(b.orders[r]); Lists(b, k, b.queues[k])
  {
  }

  lemma QueueListsOwn(b: Book, k: Key)
    requires WellFormed(b)
    ensures Lists(b, k, Queue(b, k))
  {
  }

  lemma QueueAfterErase(b: Book, r: Ref)
    requires WellFormed(b) && r in b.orders
    ensures forall k :: Queue(Erase(b, r), k) ==
              if k == KeyOf(b.orders[r]) then Without(Queue(b, k), r) else Queue(b, k)
  {
  }

  lemma EraseWellFormed(b: Book, r: Ref)
    requires WellFormed(b) && r in b.orders
    ensures WellFormed(Erase(b, r))
  {
    var b', k0 := Erase(b, r), KeyOf(b.orders[r]);
    OwnQueue(b, r);
    WithoutMembers(Queue(b, k0), r);
    QueueAfterErase(b, r);
    forall x | x in b'.orders ensures x in Queue(b', KeyOf(b'.orders[x])) {
      assert x in Queue(b, KeyOf(b.orders[x]));
    }
    forall k | k in b'.queues ensures b'.queues[k] != [] && Distinct(b'.queues[k]) && Lists(b', k, b'.queues[k]) {
      assert b'.queues[k] == Queue(b', k) && Lists(b, k, b.queues[k]);
    }
  }

  lemma ErasedOrders(b: Book, r: Ref)
    requires r in b.orders
    ensures Erase(b, r).orders == b.orders - {r}
  {
  }

  lemma SumAfterErase(orders: map<Ref, Order>, q: seq<Ref>, r: Ref)
    requires r in q && r in orders && Distinct(q)
    ensures SumShares(orders - {r}, Without(q, r)) + orders[r].shares == SumShares(orders, q)
  {
    SumWithout(orders, q, r);
    WithoutMembers(q, r);
    SumFrame(orders, orders - {r}, Without(q, r));
  }

  lemma QueueAfterAppend(b: Book, r: Ref, o: Order)
    ensures forall k :: Queue(Append(b, r, o), k) == if k == KeyOf(o) then Queue(b, k) + [r] else Queue(b, k)
  {
  }

  lemma AppendAlone(b: Book, r: Ref, o: Order)
    requires KeyOf(o) !in b.queues
    ensures Append(b, r, o) == Book(b.orders[r := o], b.queues[KeyOf(o) := [r]])
  {
    assert Queue(b, KeyOf(o)) + [r] == [r];
  }

  lemma AppendWellFormed(b: Book, r: Ref, o: Order)
    requires WellFormed(b) && r !in b.orders
    ensures WellFormed(Append(b, r, o))
  {
    var b', k0 := Append(b, r, o), KeyOf(o);
    QueueAfterAppend(b, r, o);
    assert Queue(b', k0)[|Queue(b, k0)|] == r;
    forall x | x in b'.orders ensures x in Queue(b', KeyOf(b'.orders[x])) {
      if x != r {
        var i := Find(Queue(b, KeyOf(b.orders[x])), x);
        assert Queue(b', KeyOf(b.orders[x]))[i] == x;
      }
    }
    assert k0 in b.queues ==> Lists(b, k0, b.queues[k0]);
    forall k | k in b'.queues ensures b'.queues[k] != [] && Distinct(b'.queues[k]) && Lists(b', k, b'.queues[k]) {
      assert b'.queues[k] == Queue(b', k);
      assert k != k0 ==> Lists(b, k, b.queues[k]);
    }
  }

  lemma EraseShrinks(b: Book, r: Ref)
    requires r in b.orders
    ensures r !in Erase(b, r).orders && |Erase(b, r).orders| == |b.orders| - 1
  {
  }

  /** Lowering an order and then erasing it leaves what erasing it leaves. */
  lemma DeductThenErase(b: Book, r: Ref, taken: Shares)
    requires r in b.orders && taken <= b.orders[r].shares
    ensures r in Deduct(b, r, taken).orders && Erase(Deduct(b, r, taken), r) == Erase(b, r)
    ensures Deduct(b, r, taken).orders[r].shares == b.orders[r].shares - taken
  {
    assert Deduct(b, r, taken).orders - {r} == b.orders - {r};
  }

  lemma DeductWellFormed(b: Book, r: Ref, taken: Shares)
    requires WellFormed(b) && r in b.orders && taken <= b.orders[r].shares
    ensures WellFormed(Deduct(b, r, taken))
  {
    var b' := Deduct(b, r, taken);
    forall x | x in b'.orders ensures x in Queue(b', KeyOf(b'.orders[x])) {
      assert KeyOf(b'.orders[x]) == KeyOf(b.orders[x]);
    }
    forall k | k in b'.queues ensures Lists(b', k, b'.queues[k]) { assert Lists(b, k, b.queues[k]); }
  }

  lemma AddStepWellFormed(s: State, r: Ref, o: Order)
    requires WellFormed(s.book)
    ensures WellFormed(AddStep(s, r, o).book)
  {
    hide WellFormed, Erase, Append, Observe;
    if r in s.book.orders {
      EraseWellFormed(s.book, r);
      ErasedOrders(s.book, r);
    }
    AppendWellFormed(EraseDuplicate(s, r).book, r, o);
  }

  /** Every reachable abstract book is well formed: each live order is in exactly one queue, once. */
  lemma StepWellFormed(s: State, m: Message, lookAtRetained: bool)
    requires WellFormed(s.book)
    ensures WellFormed(Step(s, m, lookAtRetained).book)
  {
    hide WellFormed, Erase, Deduct, AddStep, Observe, CountMessage;
    var s1 := s.(counters := CountMessage(s.counters, s.afterHours));
    match m
    case Add(locate, ref, side, price, shares) => AddStepWellFormed(s1, ref, Order(locate, side, price, shares));
    case Reduce(_, _, ref, qty) =>
      if ref in s.book.orders {
        EraseWellFormed(s.book, ref);
        var o := s.book.orders[ref];
        DeductWellFormed(s.book, ref, if qty > o.shares then o.shares else qty);
      }
    case Delete(_, ref) => if ref in s.book.orders { EraseWellFormed(s.book, ref); }
    case Replace(_, oldRef, newRef, price, shares) =>
      if oldRef in s.book.orders {
        EraseWellFormed(s.book, oldRef);
        var prior := s.book.orders[oldRef];
        AddStepWellFormed(s1.(book := Erase(s.book, oldRef)), newRef, Order(prior.locate, prior.side, price, shares));
      }
    case _ =>
  }

  lemma NoQueueIsPositive(b: Book, k: Key)
    requires k !in b.queues
    ensures PositiveAt(b, k)
  {
  }

  lemma PositiveByLevel(b: Book)
    requires WellFormed(b)
    ensures Positive(b) <==> forall k :: k in b.queues ==> PositiveAt(b, k)
  {
    if forall k :: k in b.queues ==> PositiveAt(b, k) {
      forall r | r in b.orders ensures b.orders[r].shares > 0 {
        OwnQueue(b, r);
        assert PositiveAt(b, KeyOf(b.orders[r]));
      }
    }
  }

  /** Adds and replacements of positive size leave no order of size zero. */
  lemma StepPositive(s: State, m: Message, lookAtRetained: bool)
    requires Positive(s.book)
    requires m.Add? || m.Replace? ==> m.shares > 0
    ensures Positive(Step(s, m, lookAtRetained).book)
  {
  }

  // ----- best prices -----

  lemma BestIs(b: Book, locate: Locate, buy: bool, p: Price)
    requires IsBest(b, locate, buy, p)
    ensures Best(b, locate, buy) == Some(p)
  {
  }

  lemma NoBest(b: Book, locate: Locate, buy: bool)
    requires forall p: Price :: Key(locate, buy, p) !in b.queues
    ensures Best(b, locate, buy) == None
  {
  }

  lemma BestExists(b: Book, k: Key)
    requires k in b.queues
    ensures Best(b, k.locate, k.buy).Some? && IsBest(b, k.locate, k.buy, Best(b, k.locate, k.buy).value)
  {
    var ps := set j | j in b.queues && j.locate == k.locate && j.buy == k.buy :: j.price;
    assert k.price in ps;
    var p := EndExists(ps, k.buy);
    assert IsBest(b, k.locate, k.buy, p) by {
      forall q: Price | Key(k.locate, k.buy, q) in b.queues ensures q in ps {
        assert Key(k.locate, k.buy, q).price == q;
      }
    }
  }

  /** The best bid is the highest one there is. */
  lemma BestBidIsHighest(b: Book, l: Locate, p: Price)
    ensures Best(b, l, true) == Some(p) <==>
            Key(l, true, p) in b.queues && forall q: Price :: Key(l, true, q) in b.queues ==> q <= p
  {
    if Key(l, true, p) in b.queues { BestExists(b, Key(l, true, p)); }
  }

  /** The best offer is the lowest one there is. */
  lemma BestOfferIsLowest(b: Book, l: Locate, p: Price)
    ensures Best(b, l, false) == Some(p) <==>
            Key(l, false, p) in b.queues && forall q: Price :: Key(l, false, q) in b.queues ==> p <= q
  {
    if Key(l, false, p) in b.queues { BestExists(b, Key(l, false, p)); }
  }

  lemma NoBestExactly(b: Book, l: Locate, buy: bool)
    ensures Best(b, l, buy) == None <==> forall p: Price :: Key(l, buy, p) !in b.queues
  {
    if p: Price :| Key(l, buy, p) in b.queues { BestExists(b, Key(l, buy, p)); }
  }

  ghost predicate BidAt(b: Book, l: Locate, p: Price) { Key(l, true, p) in b.queues }

  ghost predicate OfferAt(b: Book, l: Locate, p: Price) { Key(l, false, p) in b.queues }

  /** What a look shows, from all the levels: crossed when some bid is above some offer, locked when not crossed and
      some bid is at an offer's price. */
  lemma ObservedExactly(b: Book, l: Locate)
    ensures Observe(b, l) == OneSided <==> (forall p :: !BidAt(b, l, p)) || (forall q :: !OfferAt(b, l, q))
    ensures Observe(b, l) == CrossedAt <==> exists p, q :: BidAt(b, l, p) && OfferAt(b, l, q) && p > q
    ensures Observe(b, l) == LockedAt <==>
            && (exists p :: BidAt(b, l, p) && OfferAt(b, l, p))
            && forall p, q :: BidAt(b, l, p) && OfferAt(b, l, q) ==> p <= q
    ensures Observe(b, l) == Apart <==>
            && (exists p :: BidAt(b, l, p)) && (exists q :: OfferAt(b, l, q))
            && forall p, q :: BidAt(b, l, p) && OfferAt(b, l, q) ==> p < q
  {
    hide Best;
    NoBestExactly(b, l, true);
    NoBestExactly(b, l, false);
    var bid, offer := Best(b, l, true), Best(b, l, false);
    if bid.Some? && offer.Some? {
      BestBidIsHighest(b, l, bid.value);
      BestOfferIsLowest(b, l, offer.value);
      assert BidAt(b, l, bid.value) && OfferAt(b, l, offer.value);
    }
  }

  // ----- what the counters count -----

  predicate ForTheBook(m: Message) {
    !m.SystemEvent? && !m.StockDirectory? && !m.TradingAction? && !m.OperationalHalt?
  }

  /** The message is an execution or a cancel, of this kind, of no live order. */
  predicate Orphan(b: Book, m: Message, kind: ReduceKind) { m.Reduce? && m.kind == kind && m.ref !in b.orders }

  /** It names a live order and says at least, or more than, the shares it has. */
  predicate Empties(b: Book, m: Message) { m.Reduce? && m.ref in b.orders && m.qty >= b.orders[m.ref].shares }

  predicate Overruns(b: Book, m: Message) { m.Reduce? && m.ref in b.orders && m.qty > b.orders[m.ref].shares }

  /** A reference that is live already, and not by being the one replaced, is given to another order. */
  predicate Duplicates(b: Book, m: Message) {
    || (m.Add? && m.ref in b.orders)
    || (m.Replace? && m.oldRef in b.orders && m.newRef in b.orders && m.newRef != m.oldRef)
  }

  /** Every counter but those of the looks moves by one for its own kind of message and for no other. */
  ghost predicate CountsOne(b: Book, m: Message, afterHours: bool, c: Counters, c': Counters) {
    && c'.bookMessages == c.bookMessages + One(ForTheBook(m))
    && c'.afterEndOfHours == c.afterEndOfHours + One(ForTheBook(m) && afterHours)
    && c'.orphanExecute == c.orphanExecute + One(Orphan(b, m, Executed))
    && c'.orphanExecutePrice == c.orphanExecutePrice + One(Orphan(b, m, ExecutedWithPrice))
    && c'.orphanCancel == c.orphanCancel + One(Orphan(b, m, Cancelled))
    && c'.orphanDelete == c.orphanDelete + One(m.Delete? && m.ref !in b.orders)
    && c'.orphanReplace == c.orphanReplace + One(m.Replace? && m.oldRef !in b.orders)
    && c'.duplicateAdd == c.duplicateAdd + One(Duplicates(b, m))
    && c'.zeroShareCross == c.zeroShareCross + One(m.CrossTrade? && m.crossShares == 0)
    && c'.removedAtZero == c.removedAtZero + One(Empties(b, m))
    && c'.overExecute == c.overExecute + One(Overruns(b, m))
  }

  lemma StepCounts(s: State, m: Message, retained: bool)
    ensures CountsOne(s.book, m, s.afterHours, s.counters, Step(s, m, retained).counters)
    ensures Step(s, m, retained).afterHours <==> s.afterHours || (m.SystemEvent? && m.code == 'E' as u8)
  {
    hide Observe, Append, Deduct, Erase;
    if m.Add? {
      AddCounts(s, m, retained);
    } else if m.Replace? {
      ReplaceCounts(s, m, retained);
    } else if m.Reduce? {
      ReduceCounts(s, m, retained);
    } else if m.Delete? {
      DeleteCounts(s, m, retained);
    }
  }

  lemma AddCounts(s: State, m: Message, retained: bool)
    requires m.Add?
    ensures CountsOne(s.book, m, s.afterHours, s.counters, Step(s, m, retained).counters)
  {
    hide Observe, Append, Erase;
  }

  lemma ReplaceCounts(s: State, m: Message, retained: bool)
    requires m.Replace?
    ensures CountsOne(s.book, m, s.afterHours, s.counters, Step(s, m, retained).counters)
  {
    hide Observe, Append, Erase;
    if m.oldRef in s.book.orders { ErasedOrders(s.book, m.oldRef); }
  }

  lemma ReduceCounts(s: State, m: Message, retained: bool)
    requires m.Reduce?
    ensures CountsOne(s.book, m, s.afterHours, s.counters, Step(s, m, retained).counters)
  {
    hide Observe, Erase, Deduct;
  }

  lemma DeleteCounts(s: State, m: Message, retained: bool)
    requires m.Delete?
    ensures CountsOne(s.book, m, s.afterHours, s.counters, Step(s, m, retained).counters)
  {
    hide Observe, Erase;
  }

  /** What the counters of looks gain from one look at a book. */
  ghost predicate SeenAt(b: Book, l: Locate, c: Counters, c': Counters) {
    && c'.crossed == c.crossed + One(Observe(b, l) == CrossedAt)
    && c'.locked == c.locked + One(Observe(b, l) == LockedAt)
  }

  /** An add, an execution, a cancel or a delete is followed by one look at the symbol it names; a replace of a live
      order by a look at that order's symbol and another at the symbol the reading says; nothing else is. */
  lemma LooksAreCounted(s: State, m: Message, retained: bool) returns (between: Counters)
    ensures var c, c', b := s.counters, Step(s, m, retained).counters, BookStep(s.book, m);
            if m.Add? || m.Reduce? || m.Delete? then SeenAt(b, m.locate, c, c')
            else if m.Replace? && m.oldRef in s.book.orders then
              var l := s.book.orders[m.oldRef].locate;
              SeenAt(b, l, c, between) && SeenAt(b, if retained then l else m.locate, between, c')
            else c'.crossed == c.crossed && c'.locked == c.locked
  {
    hide Observe, Append, Erase, Deduct, BookStep, Step;
    between := s.counters;
    if m.Replace? {
      between := ReplaceLooks(s, m, retained);
    } else {
      OtherLooks(s, m, retained);
    }
  }

  lemma ReplaceLooks(s: State, m: Message, retained: bool) returns (between: Counters)
    requires m.Replace?
    ensures var c, c', b := s.counters, Step(s, m, retained).counters, BookStep(s.book, m);
            if m.oldRef in s.book.orders then
              var l := s.book.orders[m.oldRef].locate;
              SeenAt(b, l, c, between) && SeenAt(b, if retained then l else m.locate, between, c')
            else c'.crossed == c.crossed && c'.locked == c.locked
  {
    hide Observe, Append, Erase, BookStep;
    StepBook(s, m, retained);
    between := s.counters;
    if m.oldRef in s.book.orders {
      var prior := s.book.orders[m.oldRef];
      var s1 := s.(counters := CountMessage(s.counters, s.afterHours));
      between := AddStep(s1.(book := Erase(s.book, m.oldRef)), m.newRef,
                         Order(prior.locate, prior.side, m.price, m.shares)).counters;
    }
  }

  lemma OtherLooks(s: State, m: Message, retained: bool)
    requires !m.Replace?
    ensures var c, c', b := s.counters, Step(s, m, retained).counters, BookStep(s.book, m);
            if m.Add? || m.Reduce? || m.Delete? then SeenAt(b, m.locate, c, c')
            else c'.crossed == c.crossed && c'.locked == c.locked
  {
    hide Observe, Append, Erase, Deduct, BookStep;
    StepBook(s, m, retained);
  }

  /** How many of a run's messages, of this kind, name no live order when they come. */
  ghost function Orphans(run: seq<Message>, kind: ReduceKind): nat {
    if run == [] then 0
    else
      var n := |run| - 1;
      Orphans(run[..n], kind) + One(Orphan(Replayed(run[..n], true).book, run[n], kind))
  }

  lemma {:induction false} OrphansAreCounted(run: seq<Message>)
    ensures var c := Replayed(run, true).counters;
            && c.orphanExecute == Orphans(run, Executed) && c.orphanExecutePrice == Orphans(run, ExecutedWithPrice)
            && c.orphanCancel == Orphans(run, Cancelled)
  {
    hide Step;
    if run != [] {
      var n := |run| - 1;
      OrphansAreCounted(run[..n]);
      StepCounts(Replayed(run[..n], true), run[n], true);
    }
  }
}
