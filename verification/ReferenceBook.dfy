/** The deliberately simple book: ordered maps of levels, a map of orders, a list of references per level. */
module ReferenceBooks {
  import opened BookTypes
  import opened OrderedKeys
  import opened BookSpec
  import opened Gates

  /** One price level: aggregates kept beside the queue they summarise. */
  datatype RefLevel = RefLevel(shares: nat, orders: nat, fifo: seq<Ref>)

  datatype RefSymbol = RefSymbol(bids: map<Price, RefLevel>, asks: map<Price, RefLevel>) {
    function Side(buy: bool): map<Price, RefLevel> { if buy then bids else asks }

    function WithSide(buy: bool, m: map<Price, RefLevel>): RefSymbol {
      if buy then this.(bids := m) else this.(asks := m)
    }
  }

  function SymbolOf(symbols: map<Locate, RefSymbol>, l: Locate): RefSymbol {
    if l in symbols then symbols[l] else RefSymbol(map[], map[])
  }

  function LevelAt(symbols: map<Locate, RefSymbol>, k: Key): Option<RefLevel> {
    var side := SymbolOf(symbols, k.locate).Side(k.buy);
    if k.price in side then Some(side[k.price]) else None
  }

  /** The symbols after one level has been written, or dropped when it is empty. */
  function PutLevel(symbols: map<Locate, RefSymbol>, k: Key, lvl: RefLevel): map<Locate, RefSymbol> {
    var sym := SymbolOf(symbols, k.locate);
    var side := sym.Side(k.buy);
    symbols[k.locate := sym.WithSide(k.buy, if lvl.fifo == [] then side - {k.price} else side[k.price := lvl])]
  }

  lemma PutLevelAt(symbols: map<Locate, RefSymbol>, k: Key, lvl: RefLevel, j: Key)
    ensures LevelAt(PutLevel(symbols, k, lvl), j) ==
              if j != k then LevelAt(symbols, j) else if lvl.fifo == [] then None else Some(lvl)
  {
  }

  /** The level a queue amounts to. */
  ghost function LevelFrom(b: Book, k: Key): Option<RefLevel> {
    if k in b.queues then Some(RefLevel(SumShares(b.orders, b.queues[k]), |b.queues[k]|, b.queues[k])) else None
  }

  ghost predicate Shows(symbols: map<Locate, RefSymbol>, b: Book) {
    forall k :: LevelAt(symbols, k) == LevelFrom(b, k)
  }

  lemma ShowsAfterAppend(symbols: map<Locate, RefSymbol>, b: Book, r: Ref, o: Order)
    requires WellFormed(b) && Shows(symbols, b) && r !in b.orders
    ensures var k := KeyOf(o);
            var l := if LevelAt(symbols, k).Some? then LevelAt(symbols, k).value else RefLevel(0, 0, []);
            Shows(PutLevel(symbols, k, RefLevel(l.shares + o.shares, l.orders + 1, l.fifo + [r])), Append(b, r, o))
  {
    hide WellFormed, LevelAt, PutLevel;
    var k, b' := KeyOf(o), Append(b, r, o);
    var l := if LevelAt(symbols, k).Some? then LevelAt(symbols, k).value else RefLevel(0, 0, []);
    var l' := RefLevel(l.shares + o.shares, l.orders + 1, l.fifo + [r]);
    forall j ensures LevelAt(PutLevel(symbols, k, l'), j) == LevelFrom(b', j) {
      PutLevelAt(symbols, k, l', j);
      assert LevelAt(symbols, j) == LevelFrom(b, j);
      QueueLists(b, j);
      SumFrame(b.orders, b'.orders, Queue(b, j));
      if j == k {
        SumConcat(b'.orders, Queue(b, k), [r]);
        assert [r][1..] == [];
      }
    }
  }

  lemma QueueLists(b: Book, k: Key)
    requires WellFormed(b)
    ensures Lists(b, k, Queue(b, k)) && Distinct(Queue(b, k))
    ensures k in b.queues ==> b.queues[k] != []
  {
  }

  lemma ShowsAfterErase(symbols: map<Locate, RefSymbol>, b: Book, r: Ref)
    requires WellFormed(b) && Shows(symbols, b) && r in b.orders
    ensures var k := KeyOf(b.orders[r]);
            && LevelAt(symbols, k).Some?
            && var l := LevelAt(symbols, k).value;
               && r in l.fifo && l.shares >= b.orders[r].shares && l.orders > 0
               && Shows(PutLevel(symbols, k, RefLevel(l.shares - b.orders[r].shares, l.orders - 1, Without(l.fifo, r))),
                        Erase(b, r))
  {
    hide WellFormed, LevelAt, PutLevel, Erase, Distinct, KeyOf, Without, SumShares;
    OwnQueue(b, r);
    QueueAfterErase(b, r);
    ErasedOrders(b, r);
    EraseWellFormed(b, r);
    var k, b' := KeyOf(b.orders[r]), Erase(b, r);
    assert LevelAt(symbols, k) == LevelFrom(b, k);
    var l := LevelAt(symbols, k).value;
    SumAfterErase(b.orders, l.fifo, r);
    WithoutMembers(l.fifo, r);
    var l' := RefLevel(l.shares - b.orders[r].shares, l.orders - 1, Without(l.fifo, r));
    forall j ensures LevelAt(PutLevel(symbols, k, l'), j) == LevelFrom(b', j) {
      PutLevelAt(symbols, k, l', j);
      assert LevelAt(symbols, j) == LevelFrom(b, j);
      QueueKept(b, b', j);
      if j != k { OtherLevel(b, r, j); }
    }
  }

  lemma QueueKept(b: Book, b': Book, k: Key)
    requires WellFormed(b) && WellFormed(b')
    ensures k in b'.queues <==> Queue(b', k) != []
    ensures k in b.queues <==> Queue(b, k) != []
  {
  }

  lemma OtherLevel(b: Book, r: Ref, k: Key)
    requires WellFormed(b) && r in b.orders && k != KeyOf(b.orders[r])
    ensures SumShares(Erase(b, r).orders, Queue(b, k)) == SumShares(b.orders, Queue(b, k))
  {
    QueueLists(b, k);
    SumFrame(b.orders, Erase(b, r).orders, Queue(b, k));
  }

  lemma ShowsAfterDeduct(symbols: map<Locate, RefSymbol>, b: Book, r: Ref, taken: Shares)
    requires WellFormed(b) && Shows(symbols, b) && r in b.orders && taken <= b.orders[r].shares
    ensures var k := KeyOf(b.orders[r]);
            && LevelAt(symbols, k).Some?
            && var l := LevelAt(symbols, k).value;
               && l.shares >= taken && l.fifo != []
               && Shows(PutLevel(symbols, k, l.(shares := l.shares - taken)), Deduct(b, r, taken))
  {
    hide WellFormed, LevelAt, PutLevel, Distinct, KeyOf;
    OwnQueue(b, r);
    var k, b' := KeyOf(b.orders[r]), Deduct(b, r, taken);
    assert LevelAt(symbols, k) == LevelFrom(b, k);
    var l := LevelAt(symbols, k).value;
    SumWithout(b.orders, l.fifo, r);
    SumWithout(b'.orders, l.fifo, r);
    WithoutMembers(l.fifo, r);
    SumFrame(b.orders, b'.orders, Without(l.fifo, r));
    forall j ensures LevelAt(PutLevel(symbols, k, l.(shares := l.shares - taken)), j) == LevelFrom(b', j) {
      PutLevelAt(symbols, k, l.(shares := l.shares - taken), j);
      assert LevelAt(symbols, j) == LevelFrom(b, j);
      QueueLists(b, j);
      if j != k { SumFrame(b.orders, b'.orders, Queue(b, j)); }
    }
  }

  /** What one message makes the gate see: s is the book's state before it. */
  ghost function GateEvents(s: State, m: Message, ts: u64, venue: u8): seq<Event> {
    var b' := Step(s, m, false).book;
    match m
    case TradingAction(l, state) => [Action(l, ts, state)]
    case OperationalHalt(l, market, action) => if market == venue then [Halted(l, ts, action)] else []
    case Add(l, _, _, _, _) => [Looked(l, ts, Observe(b', l))]
    case Reduce(_, l, _, _) => [Looked(l, ts, Observe(b', l))]
    case Delete(l, _) => [Looked(l, ts, Observe(b', l))]
    case Replace(l, oldRef, _, _, _) =>
      if oldRef in s.book.orders
      then [Looked(s.book.orders[oldRef].locate, ts, Observe(b', s.book.orders[oldRef].locate)),
            Looked(l, ts, Observe(b', l))]
      else []
    case CrossTrade(l, _) => [Crossing(l, ts)]
    case _ => []
  }

  class ReferenceBook {
    var symbols: map<Locate, RefSymbol>
    var orders: map<Ref, Order>
    var counters: Counters
    var gate: Gate
    var afterHours: bool
    var venue: u8
    /** The queues of the abstract book, and everything the gate has seen. */
    ghost var queues: map<Key, seq<Ref>>
    ghost var seen: seq<Event>

    ghost function Contents(): Book
      reads this
    {
      Book(orders, queues)
    }

    ghost function Abs(): State
      reads this
    {
      State(Contents(), counters, afterHours)
    }

    ghost predicate Valid()
      reads this
    {
      && WellFormed(Contents()) && Shows(symbols, Contents()) && gate == After(seen)
      && counters.crossed == gate.crossed.total && counters.locked == gate.locked.total
    }

    constructor (venue: u8)
      ensures Valid() && Abs() == INITIAL && seen == [] && this.venue == venue
    {
      symbols, orders, counters, gate, afterHours, queues, seen := map[], map[], ZERO_COUNTERS, CLOSED, false, map[],
        [];
      this.venue := venue;
    }

    // ----- book operations -----

    /** Appends to the level's queue, creating the level if need be; a live duplicate is counted and replaced. */
    method AddRetained(locate: Locate, ref: Ref, side: u8, price: Price, shares: Shares, ts: u64)
      requires Valid()
      modifies this
      ensures Valid() && Abs() == AddStep(old(Abs()), ref, Order(locate, side, price, shares))
      ensures seen == old(seen) + [Looked(locate, ts, Observe(Contents(), locate))] && venue == old(venue)
    {
      hide WellFormed, Shows, After, LevelAt, PutLevel, Observe, Erase, Append;
      if ref in orders {
        counters := counters.(duplicateAdd := counters.duplicateAdd + 1);
        var removed := Remove(ref);
        EraseShrinks(old(Contents()), ref);
      }
      ghost var b := Contents();
      var o := Order(locate, side, price, shares);
      ShowsAfterAppend(symbols, b, ref, o);
      AppendWellFormed(b, ref, o);
      var lvl := LevelOf(o);
      var l := if lvl.Some? then lvl.value else RefLevel(0, 0, []);
      symbols := PutLevel(symbols, KeyOf(o), RefLevel(l.shares + shares, l.orders + 1, l.fifo + [ref]));
      orders := orders[ref := o];
      queues := Append(b, ref, o).queues;
      AppendedBook(b, ref, o);
      CheckBbo(locate, ts);
    }

    lemma AppendedBook(b: Book, r: Ref, o: Order)
      ensures Append(b, r, o) == Book(b.orders[r := o], Append(b, r, o).queues)
    {
    }

    method LevelOf(o: Order) returns (lvl: Option<RefLevel>)
      ensures lvl == LevelAt(symbols, KeyOf(o))
    {
      if o.locate !in symbols { return None; }
      var side := symbols[o.locate].Side(o.side == BUY);
      lvl := if o.price in side then Some(side[o.price]) else None;
    }

    /** Deducts shares from a resting order; at zero it leaves without waiting for a delete. */
    method Execute(ref: Ref, qty: Shares) returns (ok: bool)
      requires Valid()
      modifies `symbols, `orders, `queues, `counters
      ensures Valid() && ok == (ref in old(orders))
      ensures Abs() == if ok then ReduceStep(old(Abs()), ref, qty) else old(Abs())
    {
      hide WellFormed, Shows, After, LevelAt, PutLevel, Erase, Deduct;
      if ref !in orders { return false; }
      var o := orders[ref];
      var taken := qty;
      if qty > o.shares {
        counters := counters.(overExecute := counters.overExecute + 1);
        taken := o.shares;
      }
      ghost var b := Contents();
      ShowsAfterDeduct(symbols, b, ref, taken);
      DeductWellFormed(b, ref, taken);
      DeductedBook(b, ref, taken);
      DeductThenErase(b, ref, taken);
      var lvl := LevelOf(o);
      symbols := PutLevel(symbols, KeyOf(o), lvl.value.(shares := lvl.value.shares - taken));
      orders := orders[ref := o.(shares := o.shares - taken)];
      if orders[ref].shares == 0 {
        counters := counters.(removedAtZero := counters.removedAtZero + 1);
        EraseEntry(ref);
      }
      ok := true;
    }

    lemma DeductedBook(b: Book, r: Ref, taken: Shares)
      requires r in b.orders && taken <= b.orders[r].shares
      ensures Deduct(b, r, taken) == Book(b.orders[r := b.orders[r].(shares := b.orders[r].shares - taken)], b.queues)
    {
    }

    method Remove(ref: Ref) returns (ok: bool)
      requires Valid()
      modifies `symbols, `orders, `queues
      ensures Valid() && ok == (ref in old(orders))
      ensures Contents() == if ok then Erase(old(Contents()), ref) else old(Contents())
    {
      if ref !in orders { return false; }
      EraseEntry(ref);
      ok := true;
    }

    /** Takes an order out of its queue and drops the level if that empties it. */
    method EraseEntry(ref: Ref)
      requires Valid() && ref in orders
      modifies `symbols, `orders, `queues
      ensures Valid() && Contents() == Erase(old(Contents()), ref)
    {
      hide WellFormed, Shows, After, LevelAt, PutLevel, Erase, Without;
      ghost var b := Contents();
      ShowsAfterErase(symbols, b, ref);
      EraseWellFormed(b, ref);
      ErasedOrders(b, ref);
      var o := orders[ref];
      var lvl := LevelOf(o);
      symbols := PutLevel(symbols, KeyOf(o),
                          RefLevel(lvl.value.shares - o.shares, lvl.value.orders - 1, Without(lvl.value.fifo, ref)));
      orders := orders - {ref};
      queues := Erase(b, ref).queues;
    }

    lemma SideKeys(locate: Locate, buy: bool)
      requires Valid()
      ensures forall p: Price :: p in SymbolOf(symbols, locate).Side(buy) <==> Key(locate, buy, p) in queues
    {
      hide WellFormed, After;
      forall p: Price ensures p in SymbolOf(symbols, locate).Side(buy) <==> Key(locate, buy, p) in queues {
        assert LevelAt(symbols, Key(locate, buy, p)) == LevelFrom(Contents(), Key(locate, buy, p));
      }
    }

    // ----- the inside -----

    method BestOf(locate: Locate, buy: bool) returns (best: Option<Price>)
      requires Valid()
      ensures best == Best(Contents(), locate, buy)
    {
      hide WellFormed, Best, After;
      var side := SymbolOf(symbols, locate).Side(buy);
      SideKeys(locate, buy);
      if side == map[] {
        NoBest(Contents(), locate, buy);
        return None;
      }
      var p := EndOf(side.Keys, buy);
      BestIs(Contents(), locate, buy, p);
      best := Some(p);
    }

    /** One look at the inside of a symbol: counted if crossed or locked, and excused or not by the gate. */
    method CheckBbo(locate: Locate, ts: u64)
      requires Valid()
      modifies `counters, `gate, `seen
      ensures Valid() && Abs() == Look(old(Abs()), locate)
      ensures seen == old(seen) + [Looked(locate, ts, Observe(Contents(), locate))]
    {
      hide WellFormed, Shows, Best;
      var bid := BestOf(locate, true);
      var ask := BestOf(locate, false);
      seen := seen + [Looked(locate, ts, Observe(Contents(), locate))];
      assert seen[..|seen| - 1] == old(seen);
      if bid == None || ask == None { return; }
      var t := StateOf(gate, locate);
      if bid.value >= ask.value && Expired(t, ts) {
        gate := Put(gate, locate, t.(awaitingReopen := false)).(windowsCapped := gate.windowsCapped + 1);
      }
      if bid.value > ask.value {
        counters := counters.(crossed := counters.crossed + 1);
        gate := gate.(crossed := CountExcuse(gate.crossed, ExcuseFor(t, ts)));
      } else if bid.value == ask.value {
        counters := counters.(locked := counters.locked + 1);
        gate := gate.(locked := CountExcuse(gate.locked, ExcuseFor(t, ts)));
      } else if t.awaitingReopen {
        gate := Put(gate, locate, t.(awaitingReopen := false));
      }
    }

    // ----- messages -----

    method Tick()
      modifies `counters
      ensures counters == CountMessage(old(counters), afterHours)
    {
      counters := counters.(bookMessages := counters.bookMessages + 1);
      if afterHours { counters := counters.(afterEndOfHours := counters.afterEndOfHours + 1); }
    }

    /** A trading action, halt or cross, as the gate alone sees it. */
    method Note(e: Event)
      requires Valid() && !e.Looked?
      modifies `gate, `seen
      ensures Valid() && seen == old(seen) + [e]
    {
      hide WellFormed, Shows, After;
      AfterThen(seen, e);
      seen := seen + [e];
      gate := Gates.Next(gate, e);
    }

    method On(m: Message, ts: u64)
      requires Valid()
      modifies this
      ensures Valid() && Abs() == Step(old(Abs()), m, false) && venue == old(venue)
      ensures seen == old(seen) + GateEvents(old(Abs()), m, ts, venue)
    {
      hide WellFormed, Shows, After, Observe, Erase, Append, Deduct, Look, AddStep, ReduceStep, ReplaceStep;
      match m
      case SystemEvent(code) => if code == 'E' as u8 { afterHours := true; }
      case StockDirectory(l) => Materialise(l);
      case TradingAction(l, state) => Note(Action(l, ts, state));
      case OperationalHalt(l, market, action) => if market == venue { Note(Halted(l, ts, action)); }
      case Add(locate, ref, side, price, shares) =>
        Tick();
        AddRetained(locate, ref, side, price, shares, ts);
      case Reduce(kind, locate, ref, qty) =>
        Tick();
        var ok := Execute(ref, qty);
        if !ok { counters := CountOrphan(counters, kind); }
        CheckBbo(locate, ts);
      case Delete(locate, ref) =>
        Tick();
        var ok := Remove(ref);
        if !ok { counters := counters.(orphanDelete := counters.orphanDelete + 1); }
        CheckBbo(locate, ts);
      case Replace(locate, oldRef, newRef, price, shares) =>
        Tick();
        OnReplace(locate, oldRef, newRef, price, shares, ts);
      case Trade(_, _) => Tick();
      case CrossTrade(locate, shares) =>
        Tick();
        if shares == 0 { counters := counters.(zeroShareCross := counters.zeroShareCross + 1); }
        Note(Crossing(locate, ts));
      case BrokenTrade(_) => Tick();
    }

    /** A directory entry makes the symbol known without giving it any level. */
    method Materialise(l: Locate)
      requires Valid()
      modifies `symbols
      ensures Valid()
    {
      hide WellFormed, After;
      ghost var before := symbols;
      symbols := symbols[l := SymbolOf(symbols, l)];
      forall k ensures LevelAt(symbols, k) == LevelFrom(Contents(), k) {
        assert LevelAt(before, k) == LevelFrom(Contents(), k);
      }
    }

    method OnReplace(locate: Locate, oldRef: Ref, newRef: Ref, price: Price, shares: Shares, ts: u64)
      requires Valid()
      modifies this
      ensures Valid() && Abs() == ReplaceStep(old(Abs()), oldRef, newRef, price, shares, Some(locate))
              && venue == old(venue)
      ensures seen == old(seen) +
                if oldRef in old(orders)
                then [Looked(old(orders)[oldRef].locate, ts, Observe(Contents(), old(orders)[oldRef].locate)),
                      Looked(locate, ts, Observe(Contents(), locate))]
                else []
    {
      hide WellFormed, Shows, After, Observe, Erase, Append;
      if oldRef !in orders {
        counters := counters.(orphanReplace := counters.orphanReplace + 1);
        return;
      }
      var prior := orders[oldRef];
      var removed := Remove(oldRef);
      AddRetained(prior.locate, newRef, prior.side, price, shares, ts);
      CheckBbo(locate, ts);
    }

    // ----- queries -----

    method Level(k: Key) returns (s: Snapshot)
      requires Valid()
      ensures s == SnapshotOf(Contents(), k)
    {
      hide WellFormed, After;
      assert LevelAt(symbols, k) == LevelFrom(Contents(), k);
      if k.locate !in symbols { return ABSENT; }
      var side := symbols[k.locate].Side(k.buy);
      s := if k.price in side then Snapshot(true, side[k.price].shares, side[k.price].orders, side[k.price].fifo)
        else ABSENT;
    }

    /** The aggregate size of one level, without its queue. */
    method DepthAt(k: Key) returns (shares: nat)
      requires Valid()
      ensures shares == SumShares(orders, Queue(Contents(), k))
    {
      hide WellFormed, After;
      assert LevelAt(symbols, k) == LevelFrom(Contents(), k);
      if k.locate !in symbols { return 0; }
      var side := symbols[k.locate].Side(k.buy);
      shares := if k.price in side then side[k.price].shares else 0;
    }

    /** The checks of one level: it is not empty, and its orders are live, sized, its own, and add up. In a valid book
        only an order of size zero is ever a violation. */
    method CheckLevel(k: Key, lvl: RefLevel) returns (bad: nat)
      requires Valid() && LevelAt(symbols, k) == Some(lvl)
      ensures bad == 0 <==> PositiveAt(Contents(), k)
    {
      hide After, SumShares, WellFormed, LevelAt;
      assert LevelAt(symbols, k) == LevelFrom(Contents(), k);
      QueueLists(Contents(), k);
      NothingYet(lvl.fifo);
      bad := 0;
      bad := bad + (if lvl.fifo == [] then 1 else 0);
      bad := bad + (if lvl.orders != |lvl.fifo| then 1 else 0);
      var sum, i := 0, 0;
      while i < |lvl.fifo|
        invariant i <= |lvl.fifo| && sum == SumShares(orders, lvl.fifo[..i])
        invariant bad == 0 <==> forall j :: 0 <= j < i ==> orders[lvl.fifo[j]].shares > 0
      {
        var r := lvl.fifo[i];
        assert r in lvl.fifo && r in Queue(Contents(), k);
        SumOneMore(orders, lvl.fifo, i);
        var o := orders[r];
        bad := bad + (if o.shares == 0 then 1 else 0);
        bad := bad + (if o.price != k.price then 1 else 0) + (if o.locate != k.locate then 1 else 0);
        sum := sum + o.shares;
        i := i + 1;
      }
      assert lvl.fifo[..i] == lvl.fifo;
      bad := bad + (if sum != lvl.shares then 1 else 0);
      if bad == 0 {
        forall r | r in lvl.fifo ensures orders[r].shares > 0 { var j := Find(lvl.fifo, r); }
      }
    }

    lemma NothingYet(q: seq<Ref>)
      ensures q[..0] == [] && SumShares(orders, q[..0]) == 0
    {
    }

    method CheckSide(l: Locate, buy: bool) returns (bad: nat)
      requires Valid() && l in symbols
      ensures bad == 0 <==> forall p: Price :: PositiveAt(Contents(), Key(l, buy, p))
    {
      hide Valid, PositiveAt;
      bad := 0;
      var side := symbols[l].Side(buy);
      var left := side.Keys;
      while left != {}
        invariant left <= side.Keys
        invariant bad == 0 <==> forall p :: p in side && p !in left ==> PositiveAt(Contents(), Key(l, buy, p))
        decreases left
      {
        var p := EndOf(left, false);
        var found := CheckLevel(Key(l, buy, p), side[p]);
        bad := bad + found;
        left := left - {p};
      }
      forall p: Price | p !in side ensures PositiveAt(Contents(), Key(l, buy, p)) { AbsentIsPositive(Key(l, buy, p)); }
    }

    lemma AbsentIsPositive(k: Key)
      requires Valid() && LevelAt(symbols, k) == None
      ensures PositiveAt(Contents(), k)
    {
      hide After, WellFormed;
      assert LevelAt(symbols, k) == LevelFrom(Contents(), k);
    }

    method CheckInvariants() returns (bad: nat)
      requires Valid()
      ensures bad == 0 <==> Positive(Contents())
    {
      hide Shows, After, PositiveAt, Positive, WellFormed;
      bad := 0;
      var left := symbols.Keys;
      while left != {}
        invariant left <= symbols.Keys
        invariant bad == 0 <==> forall k: Key :: k.locate in symbols && k.locate !in left ==> PositiveAt(Contents(), k)
        decreases left
      {
        var l :| l in left;
        var bids := CheckSide(l, true);
        var asks := CheckSide(l, false);
        bad := bad + bids + asks;
        forall k: Key | k.locate == l ensures k == Key(l, true, k.price) || k == Key(l, false, k.price) {}
        left := left - {l};
      }
      forall k: Key | k.locate !in symbols ensures PositiveAt(Contents(), k) { AbsentIsPositive(k); }
      forall k: Key | k !in queues ensures PositiveAt(Contents(), k) { NoQueueIsPositive(Contents(), k); }
      PositiveByLevel(Contents());
    }
  }

  lemma EventsCarryTheTime(s: State, m: Message, ts: u64, venue: u8)
    ensures forall e :: e in GateEvents(s, m, ts, venue) ==> e.ts == ts
  {
    hide Observe, Step;
  }

  lemma StillOrdered(seen: seq<Event>, more: seq<Event>, ts: u64)
    requires Ordered(seen) && (forall e :: e in seen ==> e.ts <= ts) && (forall e :: e in more ==> e.ts == ts)
    ensures Ordered(seen + more) && forall e :: e in seen + more ==> e.ts <= ts
  {
    var longer := seen + more;
    forall i | 0 <= i < |seen| ensures seen[i].ts <= ts { assert seen[i] in seen; }
    forall i | 0 <= i < |more| ensures more[i].ts == ts { assert more[i] in more; }
    forall i, j | 0 <= i < j < |longer| ensures longer[i].ts <= longer[j].ts {
      assert longer[i] == if i < |seen| then seen[i] else more[i - |seen|];
      assert longer[j] == if j < |seen| then seen[j] else more[j - |seen|];
    }
  }

  /** Everything the messages make the gate of a fresh book see. */
  ghost function EventsOf(run: seq<Message>, times: seq<u64>, venue: u8): seq<Event>
    requires |times| == |run|
  {
    if run == [] then []
    else
      var n := |run| - 1;
      EventsOf(run[..n], times[..n], venue) + GateEvents(Replayed(run[..n], false), run[n], times[n], venue)
  }

  lemma EventsOneMore(run: seq<Message>, times: seq<u64>, venue: u8, n: nat)
    requires n < |run| == |times|
    ensures EventsOf(run[..n + 1], times[..n + 1], venue) ==
              EventsOf(run[..n], times[..n], venue) + GateEvents(Replayed(run[..n], false), run[n], times[n], venue)
  {
    hide GateEvents, Replayed;
    assert run[..n + 1][..n] == run[..n] && times[..n + 1][..n] == times[..n];
  }

  ghost predicate Forward(times: seq<u64>) { forall i, j :: 0 <= i < j < |times| ==> times[i] <= times[j] }

  /** Messages whose times never go back make an ordered run of events: all that is proved of such runs holds of it. */
  lemma {:induction false} EventsAreOrdered(run: seq<Message>, times: seq<u64>, venue: u8)
    requires |times| == |run| && Forward(times)
    ensures Ordered(EventsOf(run, times, venue))
    ensures run != [] ==> forall e :: e in EventsOf(run, times, venue) ==> e.ts <= times[|times| - 1]
  {
    hide GateEvents, Replayed, Ordered;
    if run == [] {
      NothingIsOrdered();
    } else {
      var n := |run| - 1;
      EventsAreOrdered(run[..n], times[..n], venue);
      EventsCarryTheTime(Replayed(run[..n], false), run[n], times[n], venue);
      forall e | e in EventsOf(run[..n], times[..n], venue) ensures e.ts <= times[n] {
        if n > 0 { assert times[n - 1] <= times[n]; }
      }
      StillOrdered(EventsOf(run[..n], times[..n], venue),
          GateEvents(Replayed(run[..n], false), run[n], times[n], venue), times[n]);
    }
  }

  lemma NothingIsOrdered()
    ensures Ordered([])
  {
  }

  /** A session from a fresh book: the book is what the messages describe, the gate is where the events they make leave
      it, and the book's counters of crossed and locked observations are the gate's, each the sum of its five
      buckets. */
  method ReplayGate(book: ReferenceBook, run: seq<Message>, times: seq<u64>)
    requires book.Valid() && book.Abs() == INITIAL && book.seen == [] && |times| == |run|
    modifies book
    ensures book.Valid() && book.Abs() == Replayed(run, false) && book.seen == EventsOf(run, times, old(book.venue))
    ensures book.gate == After(EventsOf(run, times, old(book.venue)))
    ensures Balanced(book.gate.crossed) && Balanced(book.gate.locked)
    ensures book.counters.crossed == book.gate.crossed.total && book.counters.locked == book.gate.locked.total
    ensures Forward(times) ==> Ordered(book.seen)
  {
    hide WellFormed, Shows, After, Balanced, GateEvents, Step, Ordered, Forward;
    var n := 0;
    assert run[..0] == [] && times[..0] == [];
    while n < |run|
      invariant n <= |run| && book.Valid() && book.venue == old(book.venue)
      invariant book.Abs() == Replayed(run[..n], false) && book.seen == EventsOf(run[..n], times[..n], book.venue)
    {
      ReplayedOneMore(run, n, false);
      EventsOneMore(run, times, book.venue, n);
      book.On(run[n], times[n]);
      n := n + 1;
    }
    assert run[..n] == run && times[..n] == times;
    if Forward(times) { EventsAreOrdered(run, times, book.venue); }
    BucketsBalance(book.seen);
  }
}
