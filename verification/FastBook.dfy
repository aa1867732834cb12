/** The market-by-order book built for speed: pooled intrusive queues, windowed levels, an open-addressed index. */
module FastBooks {
  import opened BookTypes
  import opened OrderedKeys
  import opened BookSpec
  import opened FastSides
  import opened FastPools
  import opened OrderIndexes
  import opened SymbolTables
  import Bits

  class FastBook {
    const pool: array<FastOrder>
    const refs: array<Ref>
    const table: SymbolTable
    const index: OrderIndex
    var freeHead: u32
    var counters: Counters
    var poolExhausted: nat
    var symbolOverflow: nat
    var indexFailures: nat
    var afterHours: bool
    /** The abstract book this one stands for, and its free slots in free-list order. */
    ghost var book: Book
    ghost var free: seq<u32>
    ghost const Repr: set<object>

    ghost predicate LevelsOk(slots: map<Ref, u32>, b: Book)
      reads table
    {
      forall k :: table.levels(k) == LevelFrom(slots, b, k)
    }

    /** The parts share nothing, and the index is large enough for the pool. */
    ghost predicate Sized() {
      && Repr == {this, pool, refs, index, index.slots} + table.Repr
      && {this, pool, refs, index, index.slots} !! table.Repr && table in table.Repr
      && refs.Length == pool.Length <= NO_ORDER && 2 * pool.Length <= index.slots.Length
    }

    /** The pool, the index and the levels all stand for the abstract book. */
    ghost predicate Valid()
      reads this, Repr
    {
      && Sized() && table.Valid() && index.Valid()
      && PoolOk(pool[..], refs[..], index.entries, book, free, freeHead)
      && LevelsOk(index.entries, book)
    }

    ghost function Abs(): State
      reads this
    {
      State(book, counters, afterHours)
    }

    /** The free list is seeded in reverse, so that the pool fills forward. */
    constructor (W: nat, maxOrders: nat, maxSymbols: nat, indexHint: nat, policy: HashPolicy)
      requires GoodWidth(W) && StaysInside(policy) && maxSymbols <= 0x1_0000
      requires maxOrders <= NO_ORDER && indexHint <= Bits.Pow2(62) && 2 * maxOrders <= CapacityFor(indexHint)
      ensures Valid() && Abs() == INITIAL && poolExhausted == symbolOverflow == indexFailures == 0
      ensures fresh(Repr) && Sized()
      ensures pool.Length == maxOrders && |table.symbols| == maxSymbols
      ensures forall l: Locate, buy: bool ::
                table.origins(l, buy) == -1 && table.Width(l, buy) == if l < maxSymbols then W else 0
    {
      hide SymbolTable.Valid, OrderIndex.Valid, StaysInside, Bits.Pow2, PoolOk, LevelFrom, FreeOk, SizedFor,
        CapacityFor;
      var orders, names := new FastOrder[maxOrders](_ => BLANK), new Ref[maxOrders](_ => 0);
      var idx := new OrderIndex(indexHint, policy);
      var sides := new SymbolTable(W, maxSymbols);
      pool, refs, index, table := orders, names, idx, sides;
      Repr := {this, orders, names, idx, idx.slots} + sides.Repr;
      counters, afterHours := ZERO_COUNTERS, false;
      poolExhausted, symbolOverflow, indexFailures := 0, 0, 0;
      freeHead, book, free := NO_ORDER, EMPTY_BOOK, [];
      new;
      SeedFreeList();
      EmptyPool(pool[..], refs[..], free, freeHead);
    }

    /** A pool no larger than the hint is always small enough; for a hint of 5, eight orders are. */
    static lemma HintCovers(hint: nat)
      ensures 2 * hint <= CapacityFor(hint) && CapacityFor(5) == 16
    {
    }

    method SeedFreeList()
      requires pool.Length <= NO_ORDER && freeHead == NO_ORDER && free == []
      modifies pool, `freeHead, `free
      ensures FreeOk(pool[..], free, freeHead) && |free| == pool.Length
    {
      var i := pool.Length;
      while i > 0
        invariant 0 <= i <= pool.Length && |free| == pool.Length - i && FreeOk(pool[..], free, freeHead)
        invariant forall f :: f in free ==> i <= f
      {
        i := i - 1;
        ghost var p := pool[..];
        PushFree(p, free, freeHead, i);
        pool[i] := pool[i].(next := freeHead);
        assert pool[..] == p[i := p[i].(next := freeHead)];
        freeHead := i;
        free := [i] + free;
      }
    }

    // ----- pool steps -----

    /** Takes slot idx out of its queue, and drops its level if that is now empty. */
    method Unlink(idx: u32)
      requires table.Valid() && Sized() && idx < pool.Length
      requires pool[idx].prev == NO_ORDER || pool[idx].prev < pool.Length
      requires pool[idx].next == NO_ORDER || pool[idx].next < pool.Length
      requires table.levels(KeyOf(DataOf(pool[idx]))).orders > 0
      requires var l := UnlinkedLevel(table.levels(KeyOf(DataOf(pool[idx]))), 0, pool[idx]);
               l.orders == 0 ==> l == EMPTY
      modifies pool, table.Repr
      ensures table.Valid() && pool[..] == Unlinked(old(pool[..]), idx)
      ensures forall j :: table.levels(j) == var n := old(pool[idx]);
                if j == KeyOf(DataOf(n)) then UnlinkedLevel(old(table.levels)(j), 0, n) else old(table.levels)(j)
      ensures table.origins == old(table.origins)
    {
      hide SymbolTable.Valid, OrderIndex.Valid, Unlinked;
      var k := KeyOf(DataOf(pool[idx]));
      var lvl := table.FindLevel(k);
      table.StoreLevel(k, UnlinkedLevel(lvl, 0, pool[idx]));
      Relink(idx);
    }

    /** The neighbours of slot idx skip it. */
    method Relink(idx: u32)
      requires idx < pool.Length <= NO_ORDER
      requires pool[idx].prev == NO_ORDER || pool[idx].prev < pool.Length
      requires pool[idx].next == NO_ORDER || pool[idx].next < pool.Length
      modifies pool
      ensures pool[..] == Unlinked(old(pool[..]), idx)
    {
      var o := pool[idx];
      if o.prev != NO_ORDER { pool[o.prev] := pool[o.prev].(next := o.next); }
      if o.next != NO_ORDER { pool[o.next] := pool[o.next].(prev := o.prev); }
      pool[idx] := pool[idx].(next := NO_ORDER, prev := NO_ORDER);
      assert pool[..] == Unlinked(old(pool[..]), idx);
    }

    /** Puts slot idx at the head of the free list. */
    method Release(idx: u32)
      requires idx < pool.Length
      modifies pool, `freeHead
      ensures pool[..] == Released(old(pool[..]), idx, old(freeHead)) && freeHead == idx
    {
      pool[idx] := pool[idx].(next := freeHead, prev := NO_ORDER, shares := 0);
      freeHead := idx;
    }

    /** Takes the head of the free list, if there is one. */
    method Alloc() returns (idx: u32)
      requires freeHead == NO_ORDER || freeHead < pool.Length <= NO_ORDER
      modifies `freeHead, `poolExhausted
      ensures idx == old(freeHead)
      ensures idx == NO_ORDER ==> freeHead == old(freeHead) && poolExhausted == old(poolExhausted) + 1
      ensures idx != NO_ORDER ==> freeHead == pool[idx].next && poolExhausted == old(poolExhausted)
    {
      idx := freeHead;
      if freeHead == NO_ORDER {
        poolExhausted := poolExhausted + 1;
      } else {
        freeHead := pool[idx].next;
      }
    }

    /** Lowers a level's aggregate by the shares taken from one of its orders. */
    method DropShares(k: Key, taken: nat)
      requires table.Valid() && table.levels(k).orders != 0 && taken <= table.levels(k).shares
      modifies table.Repr
      ensures table.Valid()
      ensures forall j :: table.levels(j) ==
                var l := old(table.levels)(j); if j == k then l.(shares := l.shares - taken) else l
      ensures table.origins == old(table.origins)
    {
      var lvl := table.FindLevel(k);
      table.StoreLevel(k, lvl.(shares := lvl.shares - taken));
    }

    // ----- removing -----

    /** The levels are as the book says, but order r's level is already without r's shares. */
    ghost predicate LevelsBut(slots: map<Ref, u32>, b: Book, r: Ref)
      requires r in b.orders && b.orders[r].shares <= LevelFrom(slots, b, KeyOf(b.orders[r])).shares
      reads table
    {
      forall k :: table.levels(k) ==
        var l := LevelFrom(slots, b, k);
        if k == KeyOf(b.orders[r]) then l.(shares := l.shares - b.orders[r].shares) else l
    }

    /** Finishes the removal of an order whose index entry and shares are already gone. */
    method TakeOut(idx: u32, ghost r: Ref, ghost slots: map<Ref, u32>)
      requires table.Valid() && index.Valid() && Sized()
      requires PoolOk(pool[..], refs[..], slots, book, free, freeHead)
      requires r in slots && slots[r] == idx && r in book.orders && index.entries == slots - {r}
      requires book.orders[r].shares <= LevelFrom(slots, book, KeyOf(book.orders[r])).shares
      requires LevelsBut(slots, book, r)
      modifies `freeHead, `book, `free, pool, table.Repr
      ensures Valid() && book == BookSpec.Erase(old(book), r) && table.origins == old(table.origins)
    {
      hide SymbolTable.Valid, OrderIndex.Valid, PoolOk, LevelFrom, Unlinked, Released, BookSpec.Erase, KeyOf;
      ghost var k := KeyOf(book.orders[r]);
      EraseFacts(pool[..], refs[..], slots, book, free, freeHead, r);
      Unlink(idx);
      Release(idx);
      book := BookSpec.Erase(book, r);
      free := [idx] + free;
    }

    /** Takes a live order out of its level, the pool and the index. */
    method EraseRef(ref: Ref) returns (ok: bool)
      requires Valid()
      modifies `freeHead, `book, `free, pool, index, index.slots, table.Repr
      ensures Valid() && ok == (ref in old(book).orders)
      ensures book == if ok then BookSpec.Erase(old(book), ref) else old(book)
      ensures table.origins == old(table.origins)
    {
      hide SymbolTable.Valid, OrderIndex.Valid, PoolOk, LevelFrom, BookSpec.Erase, KeyOf;
      ghost var slots, p, rs := index.entries, pool[..], refs[..];
      IndexedExactly(p, rs, slots, book, free, freeHead, ref);
      var idx := index.Erase(ref);
      assert pool[..] == p && refs[..] == rs;
      if idx == NO_ORDER {
        assert slots - {ref} == slots;
        return false;
      }
      EraseFacts(p, rs, slots, book, free, freeHead, ref);
      DropShares(KeyOf(DataOf(pool[idx])), pool[idx].shares);
      assert pool[..] == p && refs[..] == rs;
      TakeOut(idx, ref, slots);
      ok := true;
    }

    /** Lowers a live order's size, in its slot and in its level, without moving it in its queue. */
    method TakeShares(idx: u32, ghost ref: Ref, taken: Shares)
      requires Valid() && ref in index.entries && index.entries[ref] == idx && ref in book.orders
      requires idx < pool.Length && taken <= book.orders[ref].shares
      modifies `book, pool, table.Repr
      ensures Valid() && book == Deduct(old(book), ref, taken)
      ensures pool[idx].shares == old(book).orders[ref].shares - taken
    {
      hide SymbolTable.Valid, OrderIndex.Valid, PoolOk, LevelFrom, Deduct, KeyOf;
      ghost var slots, p := index.entries, pool[..];
      EraseFacts(p, refs[..], slots, book, free, freeHead, ref);
      DeductFacts(p, refs[..], slots, book, free, freeHead, ref, taken);
      DropShares(KeyOf(DataOf(pool[idx])), taken);
      pool[idx] := pool[idx].(shares := pool[idx].shares - taken);
      assert pool[..] == p[idx := p[idx].(shares := p[idx].shares - taken)];
      book := Deduct(book, ref, taken);
    }

    /** Drops an order that has reached zero. */
    method DropAtZero(idx: u32, ref: Ref)
      requires Valid() && ref in index.entries && index.entries[ref] == idx && ref in book.orders
      requires book.orders[ref].shares == 0
      modifies `freeHead, `book, `free, pool, index, index.slots, table.Repr
      ensures Valid() && book == BookSpec.Erase(old(book), ref)
    {
      hide SymbolTable.Valid, OrderIndex.Valid, PoolOk, LevelFrom, BookSpec.Erase, KeyOf;
      ghost var slots, p, rs := index.entries, pool[..], refs[..];
      var erased := index.Erase(ref);
      assert pool[..] == p && refs[..] == rs;
      TakeOut(idx, ref, slots);
    }

    /** Takes up to `qty` shares from an order, which leaves at zero; false for a reference that is not live. */
    method Reduce(ref: Ref, qty: Shares) returns (ok: bool)
      requires Valid()
      modifies `freeHead, `book, `free, `counters, pool, index, index.slots, table.Repr
      ensures Valid() && ok == (ref in old(book).orders)
      ensures Abs() == if ok then ReduceStep(old(Abs()), ref, qty) else old(Abs())
    {
      hide SymbolTable.Valid, OrderIndex.Valid, PoolOk, LevelsOk, LevelFrom, Deduct, BookSpec.Erase, KeyOf;
      IndexedExactly(pool[..], refs[..], index.entries, book, free, freeHead, ref);
      var idx := index.Find(ref);
      if idx == NO_ORDER { return false; }
      OrderInSlot(pool[..], refs[..], index.entries, book, free, freeHead, ref);
      var taken := qty;
      if qty > pool[idx].shares {
        counters := counters.(overExecute := counters.overExecute + 1);
        taken := pool[idx].shares;
      }
      DeductThenErase(book, ref, taken);
      TakeShares(idx, ref, taken);
      if pool[idx].shares == 0 {
        counters := counters.(removedAtZero := counters.removedAtZero + 1);
        DropAtZero(idx, ref);
      }
      ok := true;
    }

    /** Puts a new order in the first free slot and at the back of its level; refused only when the pool is full. */
    method Enter(ref: Ref, o: Order) returns (ok: bool)
      requires Valid() && ref !in book.orders && o.locate < |table.symbols|
      modifies `freeHead, `book, `free, `poolExhausted, `indexFailures, pool, refs, index, index.slots, table.Repr
      ensures Valid() && ok == (|old(book).orders| < pool.Length) && indexFailures == old(indexFailures)
      ensures book == (if ok then Append(old(book), ref, o) else old(book))
      ensures poolExhausted == old(poolExhausted) + if ok then 0 else 1
      ensures ok ==>
                (forall l, b :: table.origins(l, b) ==
                   var was := old(table.origins)(l, b);
                   if l == o.locate && b == (o.side == BUY) then Anchored(table.Width(l, b), was, b, o.price) else was)
    {
      hide SymbolTable.Valid, OrderIndex.Valid, PoolOk, LevelFrom, Append, Linking, Anchored;
      ghost var slots, p, rs, head := index.entries, pool[..], refs[..], freeHead;
      FreeCount(p, rs, slots, book, free, freeHead);
      var idx := Alloc();
      if idx == NO_ORDER { return false; }
      AddFacts(p, rs, slots, book, free, head, ref, o);
      KeyOfOrder(o);
      var tail := table.GrowLevel(KeyOf(o), o.shares, idx);
      assert pool[..] == p && refs[..] == rs;
      LinkBehind(idx, tail, ref, o);
      var inserted := index.Insert(ref, idx);
      assert pool[..] == Linking(p, idx, tail, o) && refs[..] == rs[idx := ref];
      // A table of at least twice the pool's size never refuses, so there is nothing to recover from.
      if !inserted { assert false; }
      book := Append(book, ref, o);
      free := free[1..];
      ok := true;
    }

    method LinkBehind(idx: u32, tail: u32, ref: Ref, o: Order)
      requires Sized() && idx < pool.Length && tail != idx && (tail == NO_ORDER || tail < pool.Length)
      modifies pool, refs
      ensures pool[..] == Linking(old(pool[..]), idx, tail, o) && refs[..] == old(refs[..])[idx := ref]
    {
      pool[idx] := FastOrder(NO_ORDER, tail, o.shares, o.price, o.locate, o.side);
      refs[idx] := ref;
      if tail != NO_ORDER { pool[tail] := pool[tail].(next := idx); }
      assert pool[..] == Linking(old(pool[..]), idx, tail, o);
    }

    /** Best price of a side: the best key of the abstract book. */
    method BestOf(locate: Locate, buy: bool) returns (have: bool, out: Price)
      requires Valid()
      ensures BookSpec.Best(book, locate, buy) == if have then Some(out) else None
    {
      hide SymbolTable.Valid, OrderIndex.Valid, LevelFrom, BookSpec.Best;
      have, out := table.Best(locate, buy);
      BestFromLevels(table.levels, index.entries, book, locate, buy, have, out);
    }

    /** A side with a best price has it in its window, except exactly when that lies below an old origin that was under
        the hysteresis. */
    ghost predicate InsideSeen(locate: Locate, buy: bool, oldBase: int)
      reads `book, table`origins
    {
      var best := BookSpec.Best(book, locate, buy);
      best.Some? && table.Width(locate, buy) > 0 ==>
        (table.Sees(locate, buy, best.value) <==> !(best.value / 100 < oldBase < table.Width(locate, buy) / 8))
    }

    /** Where a side's window is once its best price has been looked at. */
    ghost function Moved(locate: Locate, buy: bool, oldBase: int): int
      reads `book
    {
      Followed(table.Width(locate, buy), oldBase, buy, BookSpec.Best(book, locate, buy))
    }

    /** Moves one window if need be; every other window stays. */
    method MoveWindow(locate: Locate, buy: bool)
      requires Valid()
      modifies table.Repr
      ensures Valid()
      ensures forall l, b :: table.origins(l, b) ==
                var was := old(table.origins)(l, b); if l == locate && b == buy then Moved(l, b, was) else was
    {
      hide SymbolTable.Valid, OrderIndex.Valid, LevelFrom, PoolOk, BookSpec.Best, Followed;
      ghost var have, out := table.MaybeRecenter(locate, buy);
      BookWellFormed();
      BestFromLevels(table.levels, index.entries, book, locate, buy, have, out);
    }

    /** A window that has followed its best price sees it, with that exception. */
    lemma MovedSees(locate: Locate, buy: bool, oldBase: int)
      requires table.Width(locate, buy) > 0 ==> GoodWidth(table.Width(locate, buy))
      requires table.origins(locate, buy) == Moved(locate, buy, oldBase)
      ensures InsideSeen(locate, buy, oldBase)
    {
      var best := BookSpec.Best(book, locate, buy);
      if best.Some? && table.Width(locate, buy) > 0 {
        RebaseCovers(table.Width(locate, buy), oldBase, buy, best.value / 100);
      }
    }

    lemma WidthsAreGood(locate: Locate, buy: bool)
      requires table.Valid()
      ensures table.Width(locate, buy) > 0 ==> GoodWidth(table.Width(locate, buy))
    {
      if locate < |table.symbols| { assert table.symbols[locate].Side(buy).Valid(); }
    }

    /** Looks at the inside of a symbol: its windows follow the best prices, and a crossed or locked book is counted. */
    method CheckBbo(locate: Locate)
      requires Valid()
      modifies `counters, table.Repr
      ensures Valid() && Abs() == Look(old(Abs()), locate)
      ensures forall buy :: InsideSeen(locate, buy, old(table.origins)(locate, buy))
      ensures forall l, b :: table.origins(l, b) ==
                var was := old(table.origins)(l, b); if l == locate then Moved(l, b, was) else was
    {
      hide SymbolTable.Valid, OrderIndex.Valid, LevelFrom, PoolOk, BookSpec.Best, Followed, InsideSeen;
      MoveWindow(locate, true);
      MoveWindow(locate, false);
      CountInside(locate);
      forall buy: bool ensures InsideSeen(locate, buy, old(table.origins)(locate, buy)) {
        WidthsAreGood(locate, buy);
        MovedSees(locate, buy, old(table.origins)(locate, buy));
      }
    }

    method CountInside(locate: Locate)
      requires Valid()
      modifies `counters
      ensures Valid() && Abs() == Look(old(Abs()), locate)
    {
      hide SymbolTable.Valid, OrderIndex.Valid, LevelFrom, PoolOk, BookSpec.Best;
      var haveBid, bid := BestOf(locate, true);
      var haveAsk, ask := BestOf(locate, false);
      if !haveBid || !haveAsk { return; }
      if bid > ask {
        counters := counters.(crossed := counters.crossed + 1);
      } else if bid == ask {
        counters := counters.(locked := counters.locked + 1);
      }
    }

    method Tick()
      modifies `counters
      ensures counters == CountMessage(old(counters), afterHours)
    {
      counters := counters.(bookMessages := counters.bookMessages + 1);
      if afterHours { counters := counters.(afterEndOfHours := counters.afterEndOfHours + 1); }
    }

    method Add(locate: Locate, ref: Ref, side: u8, price: Price, shares: Shares)
      requires Valid()
      modifies this, pool, refs, index, index.slots, table.Repr
      ensures Valid() && indexFailures == old(indexFailures)
      ensures var refused := Refuses(old(book), ref, locate, pool.Length, |table.symbols|);
              && Abs() == (if refused then old(Abs()) else AddStep(old(Abs()), ref, Order(locate, side, price, shares)))
              && symbolOverflow == old(symbolOverflow) + (if locate >= |table.symbols| then 1 else 0)
              && poolExhausted == old(poolExhausted) + (if refused && locate < |table.symbols| then 1 else 0)
      ensures !Refuses(old(book), ref, locate, pool.Length, |table.symbols|) ==>
                forall l, b :: table.origins(l, b) ==
                  var was := old(table.origins)(l, b);
                  var anchored := if l == locate && b == (side == BUY)
                                  then Anchored(table.Width(l, b), was, b, price)
                                  else was;
                  if l == locate then Moved(l, b, anchored) else was
    {
      hide SymbolTable.Valid, OrderIndex.Valid, LevelsOk, PoolOk, Append, BookSpec.Erase, Anchored, Followed;
      if locate >= |table.symbols| {
        symbolOverflow := symbolOverflow + 1;
        return;
      }
      IndexedExactly(pool[..], refs[..], index.entries, book, free, freeHead, ref);
      FreeCount(pool[..], refs[..], index.entries, book, free, freeHead);
      var idx := index.Find(ref);
      if idx != NO_ORDER {
        counters := counters.(duplicateAdd := counters.duplicateAdd + 1);
        EraseShrinks(book, ref);
        var erased := EraseRef(ref);
      }
      var entered := Enter(ref, Order(locate, side, price, shares));
      if !entered { return; }
      CheckBbo(locate);
    }

    /** The replacement keeps the side of the order it replaces and goes to the back of the queue at the new price. It
        always fits: its predecessor has just left. */
    method OnReplace(oldRef: Ref, newRef: Ref, price: Price, shares: Shares)
      requires Valid()
      modifies this, pool, refs, index, index.slots, table.Repr
      ensures Valid() && indexFailures == old(indexFailures)
      ensures Abs() == ReplaceStep(old(Abs()), oldRef, newRef, price, shares, None)
    {
      hide SymbolTable.Valid, OrderIndex.Valid, LevelsOk, PoolOk, Append, BookSpec.Erase, BookSpec.Best, LevelFrom;
      IndexedExactly(pool[..], refs[..], index.entries, book, free, freeHead, oldRef);
      var idx := index.Find(oldRef);
      if idx == NO_ORDER {
        counters := counters.(orphanReplace := counters.orphanReplace + 1);
        return;
      }
      OrderInSlot(pool[..], refs[..], index.entries, book, free, freeHead, oldRef);
      FreeCount(pool[..], refs[..], index.entries, book, free, freeHead);
      LocateInTable(oldRef);
      EraseShrinks(book, oldRef);
      var locate, side := pool[idx].locate, pool[idx].side;
      var erased := EraseRef(oldRef);
      Add(locate, newRef, side, price, shares);
      CheckBbo(locate);
    }

    lemma LocateInTable(ref: Ref)
      requires Valid() && ref in book.orders
      ensures book.orders[ref].locate < |table.symbols|
    {
      var k := KeyOf(book.orders[ref]);
      OwnQueue(book, ref);
      assert table.levels(k) == LevelFrom(index.entries, book, k);
      table.KeyInTable(k);
    }

    lemma BookWellFormed()
      requires Valid()
      ensures WellFormed(book)
    {
      PoolWellFormed(pool[..], refs[..], index.entries, book, free, freeHead);
    }

    /** One message. Only an add can be refused: for a symbol beyond the table, or when the pool is full. */
    method On(m: Message)
      requires Valid()
      modifies this, pool, refs, index, index.slots, table.Repr
      ensures Valid() && indexFailures == old(indexFailures)
      ensures Abs() == if RefusesMessage(old(book), m, pool.Length, |table.symbols|)
                       then old(Abs()).(counters := CountMessage(old(counters), afterHours))
                       else Step(old(Abs()), m, true)
    {
      hide SymbolTable.Valid, OrderIndex.Valid, LevelsOk, PoolOk, BookSpec.Erase, Look, AddStep, ReduceStep,
        ReplaceStep, InsideSeen, Refuses,
           WellFormed, Moved, Anchored, BookSpec.Best;
      match m
      case SystemEvent(code) => if code == 'E' as u8 { afterHours := true; }
      case StockDirectory(_) =>
      case TradingAction(_, _) =>
      case OperationalHalt(_, _, _) =>
      case Add(locate, ref, side, price, shares) =>
        Tick();
        Add(locate, ref, side, price, shares);
      case Reduce(kind, locate, ref, qty) =>
        Tick();
        var ok := Reduce(ref, qty);
        if !ok { counters := CountOrphan(counters, kind); }
        CheckBbo(locate);
      case Delete(locate, ref) =>
        Tick();
        var ok := EraseRef(ref);
        if !ok { counters := counters.(orphanDelete := counters.orphanDelete + 1); }
        CheckBbo(locate);
      case Replace(_, oldRef, newRef, price, shares) =>
        Tick();
        OnReplace(oldRef, newRef, price, shares);
      case Trade(_, _) => Tick();
      case CrossTrade(_, shares) =>
        Tick();
        if shares == 0 { counters := counters.(zeroShareCross := counters.zeroShareCross + 1); }
      case BrokenTrade(_) => Tick();
    }

    // ----- queries -----

    /** One level: its aggregates, and the whole queue read along the links. */
    method Level(k: Key) returns (s: Snapshot)
      requires Valid()
      ensures s == SnapshotOf(book, k)
    {
      hide SymbolTable.Valid, OrderIndex.Valid, PoolOk, SlotIn, LevelFrom;
      var lvl := table.FindLevel(k);
      HeadAndTail(index.entries, k);
      LevelPresent(pool[..], refs[..], index.entries, book, free, freeHead, k);
      if lvl.orders == 0 { return ABSENT; }
      ghost var slots, q := index.entries, Queue(book, k);
      EndOfQueue(slots, q);
      var fifo, i := [], lvl.head;
      while i != NO_ORDER
        invariant |fifo| <= |q| && fifo == q[..|fifo|] && i == SlotIn(slots, q, |fifo|)
        decreases |q| - |fifo|
      {
        WalkStep(pool[..], refs[..], slots, book, free, freeHead, k, |fifo|);
        fifo := fifo + [refs[i]];
        i := pool[i].next;
      }
      if |fifo| < |q| { WalkStep(pool[..], refs[..], slots, book, free, freeHead, k, |fifo|); }
      s := Snapshot(true, lvl.shares, lvl.orders, fifo);
    }

    lemma HeadAndTail(slots: map<Ref, u32>, k: Key)
      requires LevelsOk(slots, book)
      ensures var q, lvl := Queue(book, k), table.levels(k);
              && lvl.head == SlotIn(slots, q, 0) && lvl.tail == SlotIn(slots, q, |q| - 1)
              && lvl.orders == |q| && lvl.shares == SumShares(book.orders, q)
    {
    }

    lemma EndOfQueue(slots: map<Ref, u32>, q: seq<Ref>)
      ensures SlotIn(slots, q, |q|) == NO_ORDER && SlotIn(slots, q, -1) == NO_ORDER && q[..0] == [] && q[..|q|] == q
    {
    }

    method LiveOrders() returns (n: nat)
      requires Valid()
      ensures n == |book.orders|
    {
      hide PoolOk;
      FreeCount(pool[..], refs[..], index.entries, book, free, freeHead);
      n := index.size;
    }

    /** Walks one level's queue, checking links, sizes and aggregates. In a valid book only an order of size zero is
        ever a violation. */
    method WalkLevel(lvl: FastLevel, ghost key: Option<Key>) returns (bad: nat)
      requires Valid() && lvl == if key.Some? then table.levels(key.value) else EMPTY
      ensures bad == 0 <==> (key.Some? ==> PositiveAt(book, key.value))
    {
      hide SymbolTable.Valid, OrderIndex.Valid, PoolOk, SlotIn, LevelFrom;
      bad := 0;
      ghost var slots, q := index.entries, if key.Some? then Queue(book, key.value) else [];
      ghost var k := if key.Some? then key.value else Key(0, true, 0);
      EndOfQueue(slots, q);
      if key.Some? {
        HeadAndTail(slots, k);
        LevelPresent(pool[..], refs[..], slots, book, free, freeHead, k);
      }
      var sum, n, prev, i := 0, 0, NO_ORDER, lvl.head;
      while i != NO_ORDER
        invariant n <= |q| && i == SlotIn(slots, q, n) && prev == SlotIn(slots, q, n - 1)
        invariant sum == SumShares(book.orders, q[..n])
        invariant bad == 0 <==> forall j :: 0 <= j < n && q[j] in book.orders ==> book.orders[q[j]].shares > 0
        decreases |q| - n
      {
        WalkStep(pool[..], refs[..], slots, book, free, freeHead, k, n);
        SumOneMore(book.orders, q, n);
        bad := bad + (if pool[i].prev != prev then 1 else 0);
        bad := bad + (if pool[i].shares == 0 then 1 else 0);
        sum := sum + pool[i].shares;
        prev := i;
        n := n + 1;
        if n > lvl.orders { break; }
        i := pool[i].next;
      }
      if n < |q| { WalkStep(pool[..], refs[..], slots, book, free, freeHead, k, n); }
      bad := bad + (if prev != lvl.tail then 1 else 0);
      bad := bad + (if n != lvl.orders then 1 else 0);
      bad := bad + (if sum != lvl.shares then 1 else 0);
    }

    /** No order of a window slot's level is of size zero. */
    ghost predicate SlotPositive(locate: Locate, buy: bool, base: int, i: nat)
      reads this
    {
      0 <= (base + i) * 100 < 0x1_0000_0000 ==> PositiveAt(book, Key(locate, buy, (base + i) * 100))
    }

    ghost predicate SlotsPositive(locate: Locate, buy: bool, base: int, n: nat)
      reads this
    {
      if n == 0 then true else SlotsPositive(locate, buy, base, n - 1) && SlotPositive(locate, buy, base, n - 1)
    }

    lemma {:induction false} EachSlotPositive(locate: Locate, buy: bool, base: int, n: nat, i: nat)
      requires i < n && SlotsPositive(locate, buy, base, n)
      ensures SlotPositive(locate, buy, base, i)
    {
      if i < n - 1 { EachSlotPositive(locate, buy, base, n - 1, i); }
    }

    lemma {:induction false} AllSlotsPositive(locate: Locate, buy: bool, base: int, n: nat)
      requires forall p: Price :: PositiveAt(book, Key(locate, buy, p))
      ensures SlotsPositive(locate, buy, base, n)
    {
      if n > 0 { AllSlotsPositive(locate, buy, base, n - 1); }
    }

    method CheckWindow(s: FastSide, locate: Locate, buy: bool) returns (bad: nat)
      requires Valid() && locate < |table.symbols| && s == table.symbols[locate].Side(buy) && s.Valid()
      requires forall p: Price :: table.levels(Key(locate, buy, p)) == s.LevelAt(p)
      ensures bad == 0 <==> SlotsPositive(locate, buy, s.base, |s.levels|)
    {
      hide Valid, FastSide.Valid, PositiveAt;
      bad := 0;
      var i := 0;
      while i < |s.levels|
        invariant i <= |s.levels|
        invariant bad == 0 <==> SlotsPositive(locate, buy, s.base, i)
      {
        s.SlotLevel(i);
        var lvl := s.levels[i];
        bad := bad + (if Bits.Bit(s.occupied.words[i / 64], i % 64) != (lvl.orders != 0) then 1 else 0);
        var p := (s.base + i) * 100;
        var walked := WalkLevel(lvl, if p < 0x1_0000_0000 then Some(Key(locate, buy, p)) else None);
        assert walked == 0 <==> SlotPositive(locate, buy, s.base, i);
        bad := bad + walked;
        i := i + 1;
      }
    }

    method CheckOverflow(s: FastSide, locate: Locate, buy: bool) returns (bad: nat)
      requires Valid() && locate < |table.symbols| && s == table.symbols[locate].Side(buy) && s.Valid()
      requires forall p: Price :: table.levels(Key(locate, buy, p)) == s.LevelAt(p)
      ensures bad == 0 <==> forall p :: p in s.overflow ==> PositiveAt(book, Key(locate, buy, p))
    {
      hide Valid, PositiveAt;
      bad := 0;
      var left := s.overflow.Keys;
      while left != {}
        invariant left <= s.overflow.Keys
        invariant bad == 0 <==> forall p :: p in s.overflow && p !in left ==> PositiveAt(book, Key(locate, buy, p))
        decreases left
      {
        var p := EndOf(left, false);
        var lvl := s.overflow[p];
        assert lvl == s.LevelAt(p) && lvl.orders != 0;
        bad := bad + (if lvl.orders == 0 then 1 else 0);
        var walked := WalkLevel(lvl, Some(Key(locate, buy, p)));
        bad := bad + walked;
        left := left - {p};
      }
    }

    /** The checks of one side: both homes of its levels. */
    method CheckSide(locate: Locate, buy: bool) returns (bad: nat)
      requires Valid() && locate < |table.symbols|
      ensures bad == 0 <==> forall p: Price :: PositiveAt(book, Key(locate, buy, p))
    {
      hide SymbolTable.Valid, FastSide.Valid, OrderIndex.Valid, PoolOk, LevelFrom, PositiveAt;
      var s := table.symbols[locate].Side(buy);
      table.SideLevels(locate, buy);
      var inWindow := CheckWindow(s, locate, buy);
      var inOverflow := CheckOverflow(s, locate, buy);
      bad := inWindow + inOverflow;
      forall p: Price | bad == 0 ensures PositiveAt(book, Key(locate, buy, p)) {
        LevelPresent(pool[..], refs[..], index.entries, book, free, freeHead, Key(locate, buy, p));
        if s.LevelAt(p).orders == 0 {
          EmptyIsPositive(Key(locate, buy, p));
        } else if p !in s.overflow {
          s.LevelLives(p);
          EachSlotPositive(locate, buy, s.base, |s.levels|, p / 100 - s.base);
        }
      }
      if forall p: Price :: PositiveAt(book, Key(locate, buy, p)) {
        AllSlotsPositive(locate, buy, s.base, |s.levels|);
      }
    }

    lemma EmptyIsPositive(k: Key)
      requires Queue(book, k) == []
      ensures PositiveAt(book, k)
    {
    }

    /** The structural check over the whole book: the only thing it can find is an order of size zero. */
    method CheckInvariants() returns (bad: nat)
      requires Valid()
      ensures bad == 0 <==> Positive(book)
    {
      hide SymbolTable.Valid, OrderIndex.Valid, PoolOk, LevelFrom, PositiveAt, Positive;
      bad := 0;
      var l: nat := 0;
      while l < |table.symbols|
        invariant l <= |table.symbols|
        invariant bad == 0 <==> forall k: Key :: k.locate < l ==> PositiveAt(book, k)
      {
        TableFits();
        var bids := CheckSide(l, true);
        var asks := CheckSide(l, false);
        bad := bad + bids + asks;
        forall k: Key | k.locate == l ensures k == Key(l, true, k.price) || k == Key(l, false, k.price) {}
        l := l + 1;
      }
      PoolWellFormed(pool[..], refs[..], index.entries, book, free, freeHead);
      PositiveByLevel(book);
      forall k | k in book.queues ensures k.locate < |table.symbols| {
        LevelPresent(pool[..], refs[..], index.entries, book, free, freeHead, k);
        table.KeyInTable(k);
      }
      forall k: Key | k !in book.queues ensures PositiveAt(book, k) { EmptyIsPositive(k); }
    }

    lemma TableFits()
      requires table.Valid()
      ensures |table.symbols| <= 0x1_0000
    {
    }
  }

  const HIGH := Order(0, SELL, 1300, 10)
  const LOW := Order(0, SELL, 200, 10)

  /** A book of two offers, made by adding the higher one first. */
  lemma TwoOffers(s: State)
    requires s.book == EMPTY_BOOK
    ensures var one := AddStep(s, 1, HIGH);
            var two := AddStep(one, 2, LOW);
            && one.book == Book(map[1 := HIGH], map[Key(0, false, 1300) := [1]])
            && two.book == Book(map[1 := HIGH, 2 := LOW], map[Key(0, false, 1300) := [1], Key(0, false, 200) := [2]])
            && BookSpec.Best(one.book, 0, false) == Some(1300) && BookSpec.Best(two.book, 0, false) == Some(200)
  {
    hide Append, Observe;
    AppendAlone(EMPTY_BOOK, 1, HIGH);
    var one := AddStep(s, 1, HIGH);
    AppendAlone(one.book, 2, LOW);
    var two := AddStep(one, 2, LOW);
    BestIs(one.book, 0, false, 1300);
    BestIs(two.book, 0, false, 200);
  }

  /** The exception is reachable. Offers at 13 cents and then at 2 cents, in a book with windows of 64 cents: the window
      is anchored at 5 cents and does not move, and the best offer is left outside it. */
  method BestLeftOutside(policy: HashPolicy) returns (book: FastBook)
    requires StaysInside(policy)
    ensures fresh(book) && book.Valid() && BookSpec.Best(book.book, 0, false) == Some(200)
    ensures book.table.origins(0, false) == 5 && !book.table.Sees(0, false, 200)
  {
    hide FastBook.Valid, StaysInside, AddStep, BookSpec.Best, Rebase, AnchorFor, FastBook.InsideSeen, GoodWidth,
      Bits.Pow2;
    WidthIsGood();
    book := new FastBook(64, 2, 1, 2, policy);
    TwoOffers(INITIAL);
    AnchoredThere();
    book.Add(0, 1, SELL, 1300, 10);
    assert book.book.orders == map[1 := HIGH] && book.table.origins(0, false) == 5;
    book.Add(0, 2, SELL, 200, 10);
  }

  lemma WidthIsGood()
    ensures GoodWidth(64) && 2 <= Bits.Pow2(62) && CapacityFor(2) == 16
  {
    Bits.Pow2Monotone(1, 62);
  }

  lemma AnchoredThere()
    ensures Rebase(64, AnchorFor(64, false, 13), false, 13) == 5 == AnchorFor(64, false, 13)
            && Rebase(64, 5, false, 2) == 5
  {
  }
}
