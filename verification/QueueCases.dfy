/** Streams that show where the relations between the queue models end. */
module QueueCases {
  import opened BookTypes
  import opened BookSpec
  import opened QueueModels
  import opened QueueBooks
  import opened QueueStreams
  import opened QueueRules

  const BID := Key(1, true, 100)
  const OFFER := Key(1, false, 200)

  // ----- following a stream -----

  lemma StreamedThen(st: Settings, run: seq<Action>, a: Action)
    ensures Streamed(st, run + [a]) == Next(st, Streamed(st, run), a)
  {
    hide Next;
    assert (run + [a])[..|run|] == run;
  }

  /** The book, the orders held, and a last time before the first sweep. */
  ghost predicate Stands(sim: Sim, b: Book, live: seq<SyntheticOrder>, ts: u64) {
    sim.s.book == b && sim.live == live && sim.lastSweep == 0 && sim.lastTs == ts
  }

  /** A message for the book that comes with no placements. */
  function Quiet(m: Message, ts: u64, coins: nat -> bool): Action { Heard(m, ts, coins, []) }

  lemma NobodyHears(st: Settings, run: seq<Action>, b: Book, m: Message, was: u64, ts: u64, coins: nat -> bool)
    requires !st.timer && MovesClock(m) && Forwarded(m) && was <= ts < SWEEP && Stands(Streamed(st, run), b, [], was)
    ensures Stands(Streamed(st, run + [Quiet(m, ts, coins)]), BookStep(b, m), [], ts)
  {
    hide Step, BookStep;
    StreamedThen(st, run, Quiet(m, ts, coins));
    StepBook(Streamed(st, run).s, m, false);
  }

  lemma OneHears(st: Settings, run: seq<Action>, b: Book, o: SyntheticOrder, m: Message, was: u64, ts: u64,
                 coins: nat -> bool)
    requires !st.timer && MovesClock(m) && Forwarded(m) && was <= ts < SWEEP && Stands(Streamed(st, run), b, [o], was)
    ensures var b' := BookStep(b, m);
            Stands(Streamed(st, run + [Quiet(m, ts, coins)]), b', [HeardBy(b, b', m, ts, o, coins(0), st.printsFill)],
                ts)
  {
    hide Step, BookStep, HeardBy;
    StreamedThen(st, run, Quiet(m, ts, coins));
    StepBook(Streamed(st, run).s, m, false);
    var b' := BookStep(b, m);
    HeardAll(b, b', m, ts, [o], coins, st.printsFill, [HeardBy(b, b', m, ts, o, coins(0), st.printsFill)]);
  }

  lemma OnePlaced(st: Settings, run: seq<Action>, b: Book, side: u8, was: u64)
    requires Stands(Streamed(st, run), b, [], was) && TwoSided(b, 1)
    ensures var o := Entrant(b, 1, side, Best(b, 1, side == BUY).value, was);
            Stands(Streamed(st, run + [Directed(1, side, was)]), b, [o], was)
  {
    hide Best, Entrant;
    StreamedThen(st, run, Directed(1, side, was));
    var o := Entrant(b, 1, side, Best(b, 1, side == BUY).value, was);
    assert [] + [o] == [o];
  }

  lemma HoldsOne(sim: Sim, b: Book, o: SyntheticOrder, ts: u64)
    requires Stands(sim, b, [o], ts)
    ensures sim.s.book == b && |sim.live| == 1 && sim.live[0] == o
  {
  }

  /** What an order hears: nothing of an add; of an execution or a removal of order r, what those do to it. */
  lemma HearsAdd(b: Book, b': Book, m: Message, ts: u64, o: SyntheticOrder, coin: bool, printsFill: bool)
    requires m.Add?
    ensures HeardBy(b, b', m, ts, o, coin, printsFill) == o
  {
  }

  lemma HearsExecution(b: Book, b': Book, r: Resolved, qty: Shares, ts: u64, o: SyntheticOrder, coin: bool,
                       printsFill: bool)
    requires r.ref in b.orders && Resolve(b, r.ref) == r && o.locate == r.locate
    ensures HeardBy(b, b', Reduce(Executed, 1, r.ref, qty), ts, o, coin, printsFill) == AfterExecution(o, r, qty, ts)
  {
    hide AfterExecution;
  }

  lemma HearsRemoval(b: Book, b': Book, m: Message, r: Resolved, ts: u64, o: SyntheticOrder, coin: bool,
                     printsFill: bool)
    requires r.ref in b.orders && Resolve(b, r.ref) == r
    requires m == Delete(1, r.ref) || m == Reduce(Cancelled, 1, r.ref, r.shares)
    ensures HeardBy(b, b', m, ts, o, coin, printsFill) == AfterCancel(o, r, r.shares, Depth(b', KeyAt(o)), coin)
  {
    hide AfterCancel, Depth;
  }

  lemma Resolved7(size: Shares, behind: Shares)
    ensures Resolve(Pair(size), 7) == Resolved(7, 1, BUY, 100, size)
    ensures Resolve(Stacked(size, behind), 7) == Resolved(7, 1, BUY, 100, size)
    ensures Resolve(Stacked(size, behind), 8) == Resolve(Second(behind), 8) == Resolved(8, 1, BUY, 100, behind)
    ensures 7 in Pair(size).orders && 7 in Stacked(size, behind).orders && 8 in Stacked(size, behind).orders
    ensures 8 in Second(behind).orders
  {
  }

  // ----- small books -----

  /** A bid of some size and an offer above it. */
  function Pair(size: Shares): Book {
    Book(map[7 := Order(1, BUY, 100, size), 9 := Order(1, SELL, 200, 5)], map[BID := [7], OFFER := [9]])
  }

  /** The same, with another bid behind the first. */
  function Stacked(size: Shares, behind: Shares): Book {
    Book(map[7 := Order(1, BUY, 100, size), 9 := Order(1, SELL, 200, 5), 8 := Order(1, BUY, 100, behind)],
         map[BID := [7, 8], OFFER := [9]])
  }

  /** The same, with the first bid gone. */
  function Second(behind: Shares): Book {
    Book(map[9 := Order(1, SELL, 200, 5), 8 := Order(1, BUY, 100, behind)], map[BID := [8], OFFER := [9]])
  }

  /** Two orders to sell at one price, the second marked neither as buying nor as selling. */
  function Odd(size: Shares, odd: Shares): Book {
    Book(map[9 := Order(1, BUY, 100, 5), 7 := Order(1, SELL, 200, size), 8 := Order(1, 88, 200, odd)],
         map[BID := [9], OFFER := [7, 8]])
  }

  lemma InsideOf(b: Book)
    requires b.queues.Keys == {BID, OFFER}
    ensures Best(b, 1, true) == Some(100) && Best(b, 1, false) == Some(200) && TwoSided(b, 1)
  {
    BestIs(b, 1, true, 100);
    BestIs(b, 1, false, 200);
  }

  lemma SumOfOne(orders: map<Ref, Order>, r: Ref)
    ensures SumShares(orders, [r]) == ShareOf(orders, r)
  {
    var q := [r];
    assert q[1..] == [];
  }

  lemma SumOfTwo(orders: map<Ref, Order>, r: Ref, x: Ref)
    ensures SumShares(orders, [r, x]) == ShareOf(orders, r) + ShareOf(orders, x)
  {
    var q := [r, x];
    assert q[1..] == [x];
    SumOfOne(orders, x);
  }

  lemma PairGrows(size: Shares, behind: Shares)
    ensures BookStep(Pair(size), Add(1, 8, BUY, 100, behind)) == Stacked(size, behind)
  {
    assert [7] + [8] == [7, 8];
  }

  lemma StackedLoses(size: Shares, behind: Shares)
    ensures BookSpec.Erase(Stacked(size, behind), 7) == Second(behind)
    ensures BookSpec.Erase(Stacked(size, behind), 8) == Pair(size)
  {
    var q: seq<Ref> := [7, 8];
    assert q[1..] == [8];
    assert Without(q, 7) == [8];
    WithoutLast();
    assert Stacked(size, behind).orders - {7} == Second(behind).orders;
    assert Stacked(size, behind).orders - {8} == Pair(size).orders;
    assert Stacked(size, behind).queues[BID := [8]] == Second(behind).queues;
    assert Stacked(size, behind).queues[BID := [7]] == Pair(size).queues;
  }

  lemma WithoutLast()
    ensures Without([7, 8], 8) == [7]
  {
    var q, last: seq<Ref> := [7, 8], [8];
    assert q[1..] == last && last[1..] == [] && q[0] == 7 && last[0] == 8;
    assert Without(last, 8) == [];
    assert Without(q, 8) == [7] + Without(last, 8);
  }

  // ----- an order behind one bid -----

  /** The two messages that make the book, and one order placed to buy behind the bid. */
  function Opening(size: Shares, coins: nat -> bool): seq<Action> {
    [] + [Quiet(Add(1, 7, BUY, 100, size), 1, coins)] + [Quiet(Add(1, 9, SELL, 200, 5), 2, coins)] +
      [Directed(1, BUY, 2)]
  }

  function Behind(size: nat, refs: set<Ref>): SyntheticOrder {
    var s := AtEntry(size);
    SyntheticOrder(1, BUY, 100, 2, size, Views(s, s, s, s, s), refs, true)
  }

  lemma BehindIs(size: nat, refs: set<Ref>)
    ensures var o, s := Behind(size, refs), AtEntry(size);
            && o.anyLive && o.locate == 1 && o.side == BUY && o.price == 100 && KeyAt(o) == BID && o.aheadRefs == refs
            && o.views == Views(s, s, s, s, s)
  {
  }

  lemma PairIsBuilt(size: Shares)
    ensures BookStep(BookStep(EMPTY_BOOK, Add(1, 7, BUY, 100, size)), Add(1, 9, SELL, 200, 5)) == Pair(size)
  {
    hide Append;
    AppendAlone(EMPTY_BOOK, 7, Order(1, BUY, 100, size));
    AppendAlone(Append(EMPTY_BOOK, 7, Order(1, BUY, 100, size)), 9, Order(1, SELL, 200, 5));
  }

  lemma PairStreamed(st: Settings, size: Shares, coins: nat -> bool)
    requires !st.timer
    ensures var run := [] + [Quiet(Add(1, 7, BUY, 100, size), 1, coins)] + [Quiet(Add(1, 9, SELL, 200, 5), 2, coins)];
            Stands(Streamed(st, run), Pair(size), [], 2)
  {
    hide BookStep;
    var m, n := Add(1, 7, BUY, 100, size), Add(1, 9, SELL, 200, 5);
    NobodyHears(st, [], EMPTY_BOOK, m, 0, 1, coins);
    NobodyHears(st, [] + [Quiet(m, 1, coins)], BookStep(EMPTY_BOOK, m), n, 1, 2, coins);
    PairIsBuilt(size);
  }

  lemma Opened(st: Settings, size: Shares, coins: nat -> bool)
    requires !st.timer
    ensures Stands(Streamed(st, Opening(size, coins)), Pair(size), [Behind(size, {7})], 2)
  {
    hide Stands;
    var run := [] + [Quiet(Add(1, 7, BUY, 100, size), 1, coins)] + [Quiet(Add(1, 9, SELL, 200, 5), 2, coins)];
    PairStreamed(st, size, coins);
    InsideOf(Pair(size));
    OnePlaced(st, run, Pair(size), BUY, 2);
    SumOfOne(Pair(size).orders, 7);
    assert Members([7]) == {7};
    assert Entrant(Pair(size), 1, BUY, 100, 2) == Behind(size, {7});
  }

  /** A bid of size zero ahead is executed: conservative, which believes that nothing is ahead, fills, and exact, which
      has seen the bid leave, does not. */
  lemma ZeroSizeAheadParts(st: Settings, coins: nat -> bool)
    requires !st.timer
    ensures var live := Streamed(st, Opening(0, coins) + [Quiet(Reduce(Executed, 1, 7, 0), 3, coins)]).live;
            |live| == 1 && live[0].views.cons.filled && live[0].views.exact.live && !live[0].views.exact.filled
  {
    hide BookStep, AfterExecution, AfterCancel, HeardBy, Stands, Streamed, Opening, Pair, Stacked, Second, Depth,
      Behind;
    var o, r := Behind(0, {7}), Resolved(7, 1, BUY, 100, 0);
    var b' := BookStep(Pair(0), Reduce(Executed, 1, 7, 0));
    Opened(st, 0, coins);
    BehindIs(0, {7});
    OneHears(st, Opening(0, coins), Pair(0), o, Reduce(Executed, 1, 7, 0), 2, 3, coins);
    Resolved7(0, 0);
    HearsExecution(Pair(0), b', r, 0, 3, o, coins(0), st.printsFill);
    ExecutionViews(o, r, 0, 3);
    HoldsOne(Streamed(st, Opening(0, coins) + [Quiet(Reduce(Executed, 1, 7, 0), 3, coins)]), b',
        AfterExecution(o, r, 0, 3), 3);
  }

  /** A second order under a live reference shrinks the level without the models seeing it; when that order is
      cancelled, proportional takes off more than was cancelled and passes optimistic. */
  lemma UnseenShrinkParts(st: Settings, coins: nat -> bool)
    requires !st.timer
    ensures var live := Streamed(st, Opening(10, coins) + [Quiet(Add(1, 7, BUY, 100, 4), 3, coins)]
                                     + [Quiet(Reduce(Cancelled, 1, 7, 4), 4, coins)]).live;
            |live| == 1 && live[0].views.prop.live && live[0].views.prop.ahead == 0.0 && live[0].views.opt.ahead == 6.0
  {
    hide BookStep, AfterExecution, AfterCancel, HeardBy, Stands, Streamed, Opening, Pair, Stacked, Second, Depth,
      Behind;
    var o, m, n := Behind(10, {7}), Add(1, 7, BUY, 100, 4), Reduce(Cancelled, 1, 7, 4);
    var r, run := Resolved(7, 1, BUY, 100, 4), Opening(10, coins) + [Quiet(m, 3, coins)];
    var b' := BookStep(Pair(4), n);
    Opened(st, 10, coins);
    OneHears(st, Opening(10, coins), Pair(10), o, m, 2, 3, coins);
    PairShrinks();
    HearsAdd(Pair(10), Pair(4), m, 3, o, coins(0), st.printsFill);
    OneHears(st, run, Pair(4), o, n, 3, 4, coins);
    Resolved7(4, 0);
    BehindIs(10, {7});
    HearsRemoval(Pair(4), b', n, r, 4, o, coins(0), st.printsFill);
    PairEmpties();
    AllGone(o, r, coins(0));
    HoldsOne(Streamed(st, run + [Quiet(n, 4, coins)]), b', AfterCancel(o, r, 4, 0, coins(0)), 4);
  }

  /** The level goes from ten shares to four, by a message that takes nothing. */
  lemma PairShrinks()
    ensures BookStep(Pair(10), Add(1, 7, BUY, 100, 4)) == Pair(4)
  {
    hide Append;
    var b := BookSpec.Erase(Pair(10), 7);
    assert b.queues == map[OFFER := [9]] && b.orders == map[9 := Order(1, SELL, 200, 5)];
    AppendAlone(b, 7, Order(1, BUY, 100, 4));
  }

  lemma PairEmpties()
    ensures Depth(BookStep(Pair(4), Reduce(Cancelled, 1, 7, 4)), BID) == 0
  {
    assert BID !in BookSpec.Erase(Pair(4), 7).queues;
  }

  /** Optimistic takes off the four cancelled shares, proportional all ten that it believed ahead. */
  lemma AllGone(o: SyntheticOrder, r: Resolved, coin: bool)
    requires o == Behind(10, {7}) && r == Resolved(7, 1, BUY, 100, 4)
    ensures var v := AfterCancel(o, r, 4, 0, coin).views; v.prop.live && v.prop.ahead == 0.0 && v.opt.ahead == 6.0
  {
    assert 4.0 * (10.0 / 4.0) == 10.0;
  }

  // ----- exact beside the approximations -----

  /** An execution behind fills exact alone: it knows that nothing can be ahead any more. */
  lemma ExactFillsAlone(st: Settings, coins: nat -> bool)
    requires !st.timer
    ensures var live := Streamed(st, Opening(300, coins) + [Quiet(Add(1, 8, BUY, 100, 100), 3, coins)]
                                     + [Quiet(Reduce(Executed, 1, 8, 100), 4, coins)]).live;
            |live| == 1 && live[0].views.exact.filled && live[0].views.opt.live
  {
    hide BookStep, AfterExecution, AfterCancel, HeardBy, Stands, Streamed, Opening, Pair, Stacked, Second, Depth,
      Behind;
    var o, m, n := Behind(300, {7}), Add(1, 8, BUY, 100, 100), Reduce(Executed, 1, 8, 100);
    var r, run := Resolved(8, 1, BUY, 100, 100), Opening(300, coins) + [Quiet(m, 3, coins)];
    var b' := BookStep(Stacked(300, 100), n);
    Opened(st, 300, coins);
    OneHears(st, Opening(300, coins), Pair(300), o, m, 2, 3, coins);
    PairGrows(300, 100);
    HearsAdd(Pair(300), Stacked(300, 100), m, 3, o, coins(0), st.printsFill);
    OneHears(st, run, Stacked(300, 100), o, n, 3, 4, coins);
    Resolved7(300, 100);
    BehindIs(300, {7});
    HearsExecution(Stacked(300, 100), b', r, 100, 4, o, coins(0), st.printsFill);
    ExecutionViews(o, r, 100, 4);
    HoldsOne(Streamed(st, run + [Quiet(n, 4, coins)]), b', AfterExecution(o, r, 100, 4), 4);
  }

  /** A cancel behind, which optimistic takes to be ahead, lets optimistic fill alone. */
  lemma OptimisticFillsAlone(st: Settings, coins: nat -> bool)
    requires !st.timer
    ensures var live := Streamed(st, Opening(300, coins) + [Quiet(Add(1, 8, BUY, 100, 300), 3, coins)]
                                     + [Quiet(Delete(1, 8), 4, coins)]
                                     + [Quiet(Reduce(Executed, 1, 7, 100), 5, coins)]).live;
            |live| == 1 && live[0].views.opt.filled && live[0].views.exact.live
  {
    hide BookStep, AfterExecution, AfterCancel, HeardBy, Stands, Streamed, Opening, Pair, Stacked, Second, Depth,
      Behind;
    var o, m, n, e := Behind(300, {7}), Add(1, 8, BUY, 100, 300), Delete(1, 8), Reduce(Executed, 1, 7, 100);
    var r, r', coin := Resolved(8, 1, BUY, 100, 300), Resolved(7, 1, BUY, 100, 300), coins(0);
    var one := Opening(300, coins) + [Quiet(m, 3, coins)];
    var two := one + [Quiet(n, 4, coins)];
    Opened(st, 300, coins);
    OneHears(st, Opening(300, coins), Pair(300), o, m, 2, 3, coins);
    PairGrows(300, 300);
    HearsAdd(Pair(300), Stacked(300, 300), m, 3, o, coin, st.printsFill);
    OneHears(st, one, Stacked(300, 300), o, n, 3, 4, coins);
    StackedDeleted();
    Resolved7(300, 300);
    BehindIs(300, {7});
    var o' := AfterCancel(o, r, 300, Depth(Pair(300), KeyAt(o)), coin);
    HearsRemoval(Stacked(300, 300), Pair(300), n, r, 4, o, coin, st.printsFill);
    CancelledBehind(o, r, Depth(Pair(300), KeyAt(o)), coin);
    OneHears(st, two, Pair(300), o', e, 4, 5, coins);
    HearsExecution(Pair(300), BookStep(Pair(300), e), r', 100, 5, o', coin, st.printsFill);
    ExecutionViews(o', r', 100, 5);
    HoldsOne(Streamed(st, two + [Quiet(e, 5, coins)]), BookStep(Pair(300), e), AfterExecution(o', r', 100, 5), 5);
  }

  lemma StackedDeleted()
    ensures BookStep(Stacked(300, 300), Delete(1, 8)) == Pair(300)
  {
    StackedLoses(300, 300);
  }

  lemma CancelledBehind(o: SyntheticOrder, r: Resolved, after: nat, coin: bool)
    requires o == Behind(300, {7}) && r == Resolved(8, 1, BUY, 100, 300)
    ensures var o' := AfterCancel(o, r, 300, after, coin);
            && o' == o.(views := o'.views) && o'.views.exact == o.views.exact
            && o'.views.opt.live && o'.views.opt.ahead == 0.0
  {
    hide Heads, Portion;
  }

  // ----- executions at other prices -----

  /** A bid joins at another price and is executed there: from a better price the order behind the first bid hears
      nothing, from a worse one it has traded through in every view. */
  lemma OtherPriceExecuted(st: Settings, price: Price, coins: nat -> bool)
    requires !st.timer && price != 100
    ensures var live := Streamed(st, Opening(300, coins) + [Quiet(Add(1, 8, BUY, price, 5), 3, coins)]
                                     + [Quiet(Reduce(Executed, 1, 8, 5), 4, coins)]).live;
            |live| == 1 && if price > 100 then live[0] == Behind(300, {7})
                           else AllFill(Behind(300, {7}), live[0], 4, TradeThrough)
  {
    hide BookStep, HeardBy, Stands, Streamed, Opening, Behind, AllFill;
    var o, m, n := Behind(300, {7}), Add(1, 8, BUY, price, 5), Reduce(Executed, 1, 8, 5);
    var run := Opening(300, coins) + [Quiet(m, 3, coins)];
    var b := BookStep(Pair(300), m);
    var b' := BookStep(b, n);
    Opened(st, 300, coins);
    OneHears(st, Opening(300, coins), Pair(300), o, m, 2, 3, coins);
    HearsAdd(Pair(300), b, m, 3, o, coins(0), st.printsFill);
    OneHears(st, run, b, o, n, 3, 4, coins);
    AnotherBid(price);
    BehindIs(300, {7});
    ExecutionHeard(b, b', n, 4, o, coins(0), st.printsFill);
    HoldsOne(Streamed(st, run + [Quiet(n, 4, coins)]), b', HeardBy(b, b', n, 4, o, coins(0), st.printsFill), 4);
  }

  lemma AnotherBid(price: Price)
    ensures var b := BookStep(Pair(300), Add(1, 8, BUY, price, 5));
            8 in b.orders && b.orders[8] == Order(1, BUY, price, 5)
  {
  }

  // ----- messages that take more than there is -----

  /** An order behind two bids. The first is executed for more than it has: exact's count no longer is what is ahead.
      When the second is executed, conservative fills and exact does not. */
  lemma OverTakeParts(st: Settings, coins: nat -> bool)
    requires !st.timer
    ensures var pair := [] + [Quiet(Add(1, 7, BUY, 100, 10), 1, coins)] + [Quiet(Add(1, 9, SELL, 200, 5), 2, coins)];
            var first := pair + [Quiet(Add(1, 8, BUY, 100, 5), 2, coins)] + [Directed(1, BUY, 2)]
                         + [Quiet(Reduce(Executed, 1, 7, 15), 3, coins)];
            var sim, sim' := Streamed(st, first), Streamed(st, first + [Quiet(Reduce(Executed, 1, 8, 5), 4, coins)]);
            && |sim.live| == 1 && sim.live[0].views.exact.live && sim.live[0].views.exact.ahead == 0.0
            && sim.live[0].aheadRefs == {8} && Depth(sim.s.book, BID) == 5
            && |sim'.live| == 1 && sim'.live[0].views.cons.filled && sim'.live[0].views.exact.live
  {
    hide BookStep, AfterExecution, AfterCancel, HeardBy, Stands, Streamed, Opening, Pair, Stacked, Second, Depth,
      Behind;
    var pair := [] + [Quiet(Add(1, 7, BUY, 100, 10), 1, coins)] + [Quiet(Add(1, 9, SELL, 200, 5), 2, coins)];
    var m, n, e, o := Add(1, 8, BUY, 100, 5), Reduce(Executed, 1, 7, 15), Reduce(Executed, 1, 8, 5), Behind(15, {7, 8});
    var r, r', coin := Resolved(7, 1, BUY, 100, 10), Resolved(8, 1, BUY, 100, 5), coins(0);
    var stack := pair + [Quiet(m, 2, coins)];
    var placed := stack + [Directed(1, BUY, 2)];
    var first := placed + [Quiet(n, 3, coins)];
    PairStreamed(st, 10, coins);
    NobodyHears(st, pair, Pair(10), m, 2, 2, coins);
    PairGrows(10, 5);
    StackedEntered(st, stack);
    OneHears(st, placed, Stacked(10, 5), o, n, 2, 3, coins);
    FirstExecuted();
    Resolved7(10, 5);
    BehindIs(15, {7, 8});
    HearsExecution(Stacked(10, 5), Second(5), r, 15, 3, o, coin, st.printsFill);
    ExecutionViews(o, r, 15, 3);
    var o' := AfterExecution(o, r, 15, 3);
    HoldsOne(Streamed(st, first), Second(5), o', 3);
    OneHears(st, first, Second(5), o', e, 3, 4, coins);
    HearsExecution(Second(5), BookStep(Second(5), e), r', 5, 4, o', coin, st.printsFill);
    ExecutionViews(o', r', 5, 4);
    HoldsOne(Streamed(st, first + [Quiet(e, 4, coins)]), BookStep(Second(5), e), AfterExecution(o', r', 5, 4), 4);
  }

  lemma StackedEntered(st: Settings, run: seq<Action>)
    requires Stands(Streamed(st, run), Stacked(10, 5), [], 2)
    ensures Stands(Streamed(st, run + [Directed(1, BUY, 2)]), Stacked(10, 5), [Behind(15, {7, 8})], 2)
  {
    hide Stands;
    InsideOf(Stacked(10, 5));
    OnePlaced(st, run, Stacked(10, 5), BUY, 2);
    SumOfTwo(Stacked(10, 5).orders, 7, 8);
    assert Members([7, 8]) == {7, 8};
    assert Entrant(Stacked(10, 5), 1, BUY, 100, 2) == Behind(15, {7, 8});
  }

  lemma FirstExecuted()
    ensures BookStep(Stacked(10, 5), Reduce(Executed, 1, 7, 15)) == Second(5) && Depth(Second(5), BID) == 5
  {
    StackedLoses(10, 5);
    SumOfOne(Second(5).orders, 8);
  }

  // ----- sides that are neither -----

  /** An order marked neither as buying nor as selling rests among the offers, but is not seen when it leaves; when the
      offer ahead is cancelled, proportional passes optimistic. */
  lemma OddSideParts(st: Settings, coins: nat -> bool)
    requires !st.timer
    ensures var run := [] + [Quiet(Add(1, 9, BUY, 100, 5), 1, coins)] + [Quiet(Add(1, 7, SELL, 200, 10), 2, coins)]
                       + [Quiet(Add(1, 8, 88, 200, 6), 2, coins)] + [Directed(1, SELL, 2)]
                       + [Quiet(Delete(1, 8), 3, coins)] + [Quiet(Reduce(Cancelled, 1, 7, 10), 4, coins)];
            var live := Streamed(st, run).live;
            |live| == 1 && live[0].views.prop.live && live[0].views.prop.ahead == 0.0 && live[0].views.opt.ahead == 6.0
  {
    hide BookStep, AfterCancel, HeardBy, Stands, Streamed, Odd, Depth, Offered;
    var a, b, c := Add(1, 9, BUY, 100, 5), Add(1, 7, SELL, 200, 10), Add(1, 8, 88, 200, 6);
    var d, e, o, coin := Delete(1, 8), Reduce(Cancelled, 1, 7, 10), Offered(), coins(0);
    var r, r' := Resolved(8, 1, 88, 200, 6), Resolved(7, 1, SELL, 200, 10);
    var one := [] + [Quiet(a, 1, coins)];
    var two := one + [Quiet(b, 2, coins)];
    var three := two + [Quiet(c, 2, coins)];
    var placed := three + [Directed(1, SELL, 2)];
    var left := BookStep(Odd(10, 6), d);
    var empty := BookStep(left, e);
    NothingStreamed(st);
    NobodyHears(st, [], EMPTY_BOOK, a, 0, 1, coins);
    NobodyHears(st, one, BookStep(EMPTY_BOOK, a), b, 1, 2, coins);
    NobodyHears(st, two, BookStep(BookStep(EMPTY_BOOK, a), b), c, 2, 2, coins);
    OddIsBuilt();
    OddEntered(st, three);
    OneHears(st, placed, Odd(10, 6), o, d, 2, 3, coins);
    OddLeaves();
    OfferedIs();
    HearsRemoval(Odd(10, 6), left, d, r, 3, o, coin, st.printsFill);
    UntouchedByCancel(o, r, 6, Depth(left, OFFER), coin);
    OneHears(st, placed + [Quiet(d, 3, coins)], left, o, e, 3, 4, coins);
    HearsRemoval(left, empty, e, r', 4, o, coin, st.printsFill);
    AllOffersGone(coin);
    HoldsOne(Streamed(st, placed + [Quiet(d, 3, coins)] + [Quiet(e, 4, coins)]), empty,
        AfterCancel(o, r', 10, 0, coin), 4);
  }

  function Offered(): SyntheticOrder {
    var s := AtEntry(16);
    SyntheticOrder(1, SELL, 200, 2, 16, Views(s, s, s, s, s), {7, 8}, true)
  }

  lemma OfferedIs()
    ensures KeyAt(Offered()) == OFFER && Offered().side == SELL
  {
  }

  lemma NothingStreamed(st: Settings)
    ensures Stands(Streamed(st, []), EMPTY_BOOK, [], 0)
  {
  }

  lemma OddIsBuilt()
    ensures BookStep(BookStep(BookStep(EMPTY_BOOK, Add(1, 9, BUY, 100, 5)), Add(1, 7, SELL, 200, 10)),
            Add(1, 8, 88, 200, 6))
            == Odd(10, 6)
  {
    var a := Append(EMPTY_BOOK, 9, Order(1, BUY, 100, 5));
    AppendAlone(EMPTY_BOOK, 9, Order(1, BUY, 100, 5));
    AppendAlone(a, 7, Order(1, SELL, 200, 10));
    assert [7] + [8] == [7, 8];
  }

  lemma OddEntered(st: Settings, run: seq<Action>)
    requires Stands(Streamed(st, run), Odd(10, 6), [], 2)
    ensures Stands(Streamed(st, run + [Directed(1, SELL, 2)]), Odd(10, 6), [Offered()], 2)
  {
    hide Stands;
    InsideOf(Odd(10, 6));
    OnePlaced(st, run, Odd(10, 6), SELL, 2);
    SumOfTwo(Odd(10, 6).orders, 7, 8);
    assert Members([7, 8]) == {7, 8};
    assert Entrant(Odd(10, 6), 1, SELL, 200, 2) == Offered();
  }

  /** The odd order goes, then the offer: after that nothing is left at the price. */
  lemma OddLeaves()
    ensures var left := BookStep(Odd(10, 6), Delete(1, 8));
            && 7 in left.orders && Resolve(left, 7) == Resolved(7, 1, SELL, 200, 10)
            && 8 in Odd(10, 6).orders && Resolve(Odd(10, 6), 8) == Resolved(8, 1, 88, 200, 6)
            && Depth(BookStep(left, Reduce(Cancelled, 1, 7, 10)), OFFER) == 0
  {
    WithoutLast();
    var left := BookStep(Odd(10, 6), Delete(1, 8));
    assert left.queues[OFFER] == [7];
    assert Without([7], 7) == [];
    assert OFFER !in BookSpec.Erase(left, 7).queues;
  }

  lemma AllOffersGone(coin: bool)
    ensures var v := AfterCancel(Offered(), Resolved(7, 1, SELL, 200, 10), 10, 0, coin).views;
            v.prop.live && v.prop.ahead == 0.0 && v.opt.ahead == 6.0
  {
    assert 10.0 * (16.0 / 10.0) == 16.0;
  }
}
