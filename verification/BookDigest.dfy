/** The canonical bytes of a whole book: which book they came from can be told from them. */
module BookDigests {
  import opened BookTypes
  import opened OrderedKeys
  import opened BookSpec
  import opened Wire
  import opened ReferenceBooks
  import opened Sha256s
  import opened Determinism

  datatype QueuedOrder = QueuedOrder(ref: Ref, shares: Shares)

  datatype Level = Level(price: Price, shares: nat, orders: seq<QueuedOrder>)

  /** A symbol with at least one level. */
  datatype Listed = Listed(locate: Locate, bids: seq<Level>, asks: seq<Level>)

  // ----- the bytes -----

  function OrderFields(o: QueuedOrder): seq<Field> { [Field(o.ref, 8), Field(o.shares, 4)] }

  function OrderBytes(os: seq<QueuedOrder>): Bytes {
    if os == [] then [] else Written(OrderFields(os[0])) + OrderBytes(os[1..])
  }

  function LevelFields(l: Level): seq<Field> { [Field(l.price, 4), Field(l.shares, 8), Field(|l.orders|, 4)] }

  function LevelBytes(ls: seq<Level>): Bytes {
    if ls == [] then [] else (Written(LevelFields(ls[0])) + OrderBytes(ls[0].orders)) + LevelBytes(ls[1..])
  }

  function SideFields(tag: u8, ls: seq<Level>): seq<Field> { [Field(tag, 1), Field(|ls|, 4)] }

  function SideBytes(tag: u8, ls: seq<Level>): Bytes { Written(SideFields(tag, ls)) + LevelBytes(ls) }

  function SymbolFields(s: Listed): seq<Field> { [Field(s.locate, 4)] }

  function SymbolBytes(s: Listed): Bytes {
    Written(SymbolFields(s)) + (SideBytes(BUY, s.bids) + SideBytes(SELL, s.asks))
  }

  function ListingBytes(ss: seq<Listed>): Bytes {
    if ss == [] then [] else SymbolBytes(ss[0]) + ListingBytes(ss[1..])
  }

  lemma {:induction false} SmallNumber(x: u8, n: nat)
    requires n > 0
    ensures ToBigEndian(x, n) == Zeros(n - 1) + [x]
  {
    if n > 1 {
      SmallNumber(0, n - 1);
      assert ToBigEndian(x, n) == ToBigEndian(0, n - 1) + [x];
      assert Zeros(n - 2) + [0] == Zeros(n - 1);
    } else {
      assert ToBigEndian(x / 256, 0) == [];
    }
  }

  /** What is written for one symbol with one bid of one order. */
  lemma OneBidIs(locate: u8, price: u8, ref: u8, shares: u8)
    ensures ListingBytes([Listed(locate, [Level(price, shares, [QueuedOrder(ref, shares)])], [])])
            == [0, 0, 0, locate] + ['B' as u8, 0, 0, 0, 1]
               + [0, 0, 0, price] + [0, 0, 0, 0, 0, 0, 0, shares] + [0, 0, 0, 1]
               + [0, 0, 0, 0, 0, 0, 0, ref] + [0, 0, 0, shares]
               + ['S' as u8, 0, 0, 0, 0]
  {
    hide Written, SymbolBytes, LevelBytes, OrderBytes, ListingBytes, ToBigEndian;
    var o, l := QueuedOrder(ref, shares), Level(price, shares, [QueuedOrder(ref, shares)]);
    var s := Listed(locate, [l], []);
    OnlyOne(s, l, o);
    Narrow(locate);
    Narrow(price);
    Narrow(ref);
    Narrow(shares);
    Narrow(1);
    TwoWritten(Field(ref, 8), Field(shares, 4));
    ThreeWritten(Field(price, 4), Field(shares, 8), Field(1, 4));
    OneWritten(Field(locate, 4));
    Flat(ToBigEndian(locate, 4), Written(SideFields(BUY, [l])), ToBigEndian(price, 4), ToBigEndian(shares, 8),
         ToBigEndian(1, 4), ToBigEndian(ref, 8), ToBigEndian(shares, 4), Written(SideFields(SELL, [])));
    OneFlag(BUY, 1);
    OneFlag(SELL, 0);
  }

  lemma OneFlag(tag: u8, n: u8)
    ensures Written([Field(tag, 1), Field(n, 4)]) == [tag, 0, 0, 0, n]
  {
    hide Written, ToBigEndian;
    TwoWritten(Field(tag, 1), Field(n, 4));
    Narrow(tag);
    Narrow(n);
  }

  lemma Flat(a: Bytes, b: Bytes, c: Bytes, d: Bytes, e: Bytes, f: Bytes, g: Bytes, h: Bytes)
    ensures a + ((b + ((c + (d + e)) + (f + g))) + h) == a + b + c + d + e + f + g + h
  {
  }

  lemma OnlyOne(s: Listed, l: Level, o: QueuedOrder)
    requires s.bids == [l] && s.asks == [] && l.orders == [o]
    ensures ListingBytes([s]) == Written(SymbolFields(s)) + ((Written(SideFields(BUY, [l]))
                                 + (Written(LevelFields(l)) + Written(OrderFields(o)))) + Written(SideFields(SELL, [])))
  {
    hide Written;
    assert [s][1..] == [] && [l][1..] == [] && [o][1..] == [];
    assert OrderBytes([o]) == Written(OrderFields(o)) + [];
    assert LevelBytes([l]) == (Written(LevelFields(l)) + OrderBytes([o])) + [];
    assert LevelBytes([]) == [];
    assert SideBytes(SELL, []) == Written(SideFields(SELL, [])) + [];
    assert ListingBytes([s]) == SymbolBytes(s) + [];
  }

  lemma Narrow(x: u8)
    ensures ToBigEndian(x, 1) == [x] && ToBigEndian(x, 4) == [0, 0, 0, x]
    ensures ToBigEndian(x, 8) == [0, 0, 0, 0, 0, 0, 0, x]
  {
    SmallNumber(x, 1);
    SmallNumber(x, 4);
    SmallNumber(x, 8);
  }

  lemma OneWritten(a: Field)
    ensures Written([a]) == ToBigEndian(a.value, a.width)
  {
    assert [a][1..] == [];
  }

  lemma TwoWritten(a: Field, b: Field)
    ensures Written([a, b]) == ToBigEndian(a.value, a.width) + ToBigEndian(b.value, b.width)
  {
    OneWritten(b);
    assert [a, b][1..] == [b];
  }

  lemma ThreeWritten(a: Field, b: Field, c: Field)
    ensures Written([a, b, c]) == ToBigEndian(a.value, a.width) + (ToBigEndian(b.value, b.width)
                                  + ToBigEndian(c.value, c.width))
  {
    TwoWritten(b, c);
    assert [a, b, c][1..] == [b, c];
  }

  /** The counts fit the fields they are written in. */
  ghost predicate LevelFits(l: Level) { l.shares < Pow256(8) && |l.orders| < Pow256(4) }

  ghost predicate LevelsFit(ls: seq<Level>) { |ls| < Pow256(4) && forall l :: l in ls ==> LevelFits(l) }

  ghost predicate ListingFits(ss: seq<Listed>) { forall s :: s in ss ==> LevelsFit(s.bids) && LevelsFit(s.asks) }

  lemma {:induction false} OrdersFront(a: seq<QueuedOrder>, b: seq<QueuedOrder>, r: Bytes, r': Bytes)
    requires |a| == |b| && OrderBytes(a) + r == OrderBytes(b) + r'
    ensures a == b && r == r'
  {
    hide Written;
    if a == [] {
      assert OrderBytes(a) + r == r && OrderBytes(b) + r' == r';
    } else {
      Widths();
      Join(Written(OrderFields(a[0])), OrderBytes(a[1..]), r);
      Join(Written(OrderFields(b[0])), OrderBytes(b[1..]), r');
      FieldsFront(OrderFields(a[0]), OrderFields(b[0]), OrderBytes(a[1..]) + r, OrderBytes(b[1..]) + r');
      assert OrderFields(a[0])[0] == OrderFields(b[0])[0] && OrderFields(a[0])[1] == OrderFields(b[0])[1];
      OrdersFront(a[1..], b[1..], r, r');
      assert a == [a[0]] + a[1..] && b == [b[0]] + b[1..];
    }
  }

  lemma LevelFront(a: Level, b: Level, r: Bytes, r': Bytes)
    requires LevelFits(a) && LevelFits(b)
    requires (Written(LevelFields(a)) + OrderBytes(a.orders)) + r ==
             (Written(LevelFields(b)) + OrderBytes(b.orders)) + r'
    ensures a == b && r == r'
  {
    hide Written, OrderBytes;
    Widths();
    Join(Written(LevelFields(a)), OrderBytes(a.orders), r);
    Join(Written(LevelFields(b)), OrderBytes(b.orders), r');
    FieldsFront(LevelFields(a), LevelFields(b), OrderBytes(a.orders) + r, OrderBytes(b.orders) + r');
    var f, g := LevelFields(a), LevelFields(b);
    assert f[0] == g[0] && f[1] == g[1] && f[2] == g[2];
    OrdersFront(a.orders, b.orders, r, r');
  }

  lemma {:induction false} LevelsFront(a: seq<Level>, b: seq<Level>, r: Bytes, r': Bytes)
    requires |a| == |b| && (forall l :: l in a ==> LevelFits(l)) && (forall l :: l in b ==> LevelFits(l))
    requires LevelBytes(a) + r == LevelBytes(b) + r'
    ensures a == b && r == r'
  {
    hide Written, OrderBytes, LevelFields;
    if a == [] {
      assert LevelBytes(a) + r == r && LevelBytes(b) + r' == r';
    } else {
      Join(Written(LevelFields(a[0])) + OrderBytes(a[0].orders), LevelBytes(a[1..]), r);
      Join(Written(LevelFields(b[0])) + OrderBytes(b[0].orders), LevelBytes(b[1..]), r');
      LevelFront(a[0], b[0], LevelBytes(a[1..]) + r, LevelBytes(b[1..]) + r');
      LevelsFront(a[1..], b[1..], r, r');
      assert a == [a[0]] + a[1..] && b == [b[0]] + b[1..];
    }
  }

  lemma SideFront(tag: u8, a: seq<Level>, b: seq<Level>, r: Bytes, r': Bytes)
    requires LevelsFit(a) && LevelsFit(b) && SideBytes(tag, a) + r == SideBytes(tag, b) + r'
    ensures a == b && r == r'
  {
    hide Written, LevelBytes;
    Widths();
    Join(Written(SideFields(tag, a)), LevelBytes(a), r);
    Join(Written(SideFields(tag, b)), LevelBytes(b), r');
    FieldsFront(SideFields(tag, a), SideFields(tag, b), LevelBytes(a) + r, LevelBytes(b) + r');
    assert SideFields(tag, a)[1] == SideFields(tag, b)[1];
    LevelsFront(a, b, r, r');
  }

  lemma SymbolFront(a: Listed, b: Listed, r: Bytes, r': Bytes)
    requires LevelsFit(a.bids) && LevelsFit(a.asks) && LevelsFit(b.bids) && LevelsFit(b.asks)
    requires SymbolBytes(a) + r == SymbolBytes(b) + r'
    ensures a == b && r == r'
  {
    hide Written, SideBytes, LevelsFit;
    Widths();
    var x, y := SideBytes(SELL, a.asks), SideBytes(SELL, b.asks);
    Join(Written(SymbolFields(a)), SideBytes(BUY, a.bids) + x, r);
    Join(Written(SymbolFields(b)), SideBytes(BUY, b.bids) + y, r');
    FieldsFront(SymbolFields(a), SymbolFields(b), (SideBytes(BUY, a.bids) + x) + r, (SideBytes(BUY, b.bids) + y) + r');
    assert SymbolFields(a)[0] == SymbolFields(b)[0];
    Join(SideBytes(BUY, a.bids), x, r);
    Join(SideBytes(BUY, b.bids), y, r');
    SideFront(BUY, a.bids, b.bids, x + r, y + r');
    SideFront(SELL, a.asks, b.asks, r, r');
  }

  lemma SymbolNotEmpty(s: Listed)
    ensures SymbolBytes(s) != []
  {
    assert |ToBigEndian(s.locate, 4)| == 4;
    assert SymbolFields(s)[1..] == [];
  }

  /** Equal bytes mean equal listings. */
  lemma {:induction false} ListingOneWay(a: seq<Listed>, b: seq<Listed>)
    requires ListingFits(a) && ListingFits(b) && ListingBytes(a) == ListingBytes(b)
    ensures a == b
  {
    hide SymbolBytes, LevelsFit;
    if a != [] { SymbolNotEmpty(a[0]); }
    if b != [] { SymbolNotEmpty(b[0]); }
    if a != [] {
      SymbolFront(a[0], b[0], ListingBytes(a[1..]), ListingBytes(b[1..]));
      ListingOneWay(a[1..], b[1..]);
      assert a == [a[0]] + a[1..] && b == [b[0]] + b[1..];
    }
  }

  // ----- the listing of a book -----

  ghost function Prices(b: Book, l: Locate, buy: bool): set<Price> {
    set k | k in b.queues && k.locate == l && k.buy == buy :: k.price
  }

  lemma PriceIn(b: Book, l: Locate, buy: bool, p: Price)
    ensures p in Prices(b, l, buy) <==> Key(l, buy, p) in b.queues
  {
    if Key(l, buy, p) in b.queues { assert Key(l, buy, p).price == p; }
  }

  lemma LeastExists(ps: set<Price>)
    requires ps != {}
    ensures exists p :: IsEnd(ps, false, p)
  {
    var p := EndExists(ps, false);
  }

  ghost function First(ps: set<Price>): (p: Price)
    requires ps != {}
    ensures IsEnd(ps, false, p)
  {
    LeastExists(ps);
    var p :| IsEnd(ps, false, p);
    p
  }

  lemma FirstIs(ps: set<Price>, p: Price)
    requires IsEnd(ps, false, p)
    ensures ps != {} && First(ps) == p
  {
  }

  ghost function Ascending(ps: set<Price>): seq<Price>
    decreases |ps|
  {
    if ps == {} then [] else [First(ps)] + Ascending(ps - {First(ps)})
  }

  lemma {:induction false} AscendingMembers(ps: set<Price>)
    ensures |Ascending(ps)| == |ps| && forall p :: p in Ascending(ps) <==> p in ps
    decreases |ps|
  {
    if ps != {} { AscendingMembers(ps - {First(ps)}); }
  }

  function Queued(orders: map<Ref, Order>, q: seq<Ref>): seq<QueuedOrder> {
    if q == [] then []
    else [QueuedOrder(q[0], if q[0] in orders then orders[q[0]].shares else 0)] + Queued(orders, q[1..])
  }

  function LevelOf(b: Book, k: Key): Level {
    Level(k.price, SumShares(b.orders, Queue(b, k)), Queued(b.orders, Queue(b, k)))
  }

  function LevelsOf(b: Book, l: Locate, buy: bool, ps: seq<Price>): seq<Level> {
    if ps == [] then [] else [LevelOf(b, Key(l, buy, ps[0]))] + LevelsOf(b, l, buy, ps[1..])
  }

  ghost function SideOf(b: Book, l: Locate, buy: bool): seq<Level> { LevelsOf(b, l, buy, Ascending(Prices(b, l, buy))) }

  ghost function SymbolsFrom(b: Book, l: nat): seq<Listed>
    requires l <= 0x1_0000
    decreases 0x1_0000 - l
  {
    if l == 0x1_0000 then []
    else
      (if SideOf(b, l, true) == [] && SideOf(b, l, false) == [] then []
        else [Listed(l, SideOf(b, l, true), SideOf(b, l, false))])
      + SymbolsFrom(b, l + 1)
  }

  lemma {:induction false} LocatesRise(b: Book, l: nat)
    requires l <= 0x1_0000
    ensures forall s :: s in SymbolsFrom(b, l) ==> s.locate >= l
    decreases 0x1_0000 - l
  {
    hide SideOf;
    if l < 0x1_0000 { LocatesRise(b, l + 1); }
  }

  /** A symbol is listed first exactly when it has a level; the rest of the listing is that of the symbols after it. */
  lemma ListedHere(b: Book, l: nat)
    requires l < 0x1_0000
    ensures var ss := SymbolsFrom(b, l);
            if ss != [] && ss[0].locate == l
            then ss[0] == Listed(l, SideOf(b, l, true), SideOf(b, l, false)) && ss[1..] == SymbolsFrom(b, l + 1)
            else SideOf(b, l, true) == SideOf(b, l, false) == [] && ss == SymbolsFrom(b, l + 1)
  {
    hide SideOf;
    LocatesRise(b, l + 1);
    var more := SymbolsFrom(b, l + 1);
    assert more != [] ==> more[0] in more;
    assert [] + more == more;
  }

  lemma {:induction false} SameSides(a: Book, b: Book, l: nat, m: Locate)
    requires l <= m && SymbolsFrom(a, l) == SymbolsFrom(b, l)
    ensures SideOf(a, m, true) == SideOf(b, m, true) && SideOf(a, m, false) == SideOf(b, m, false)
    decreases 0x1_0000 - l
  {
    hide SideOf, SymbolsFrom;
    ListedHere(a, l);
    ListedHere(b, l);
    if l < m { SameSides(a, b, l + 1, m); }
  }

  lemma {:induction false} SameQueue(x: map<Ref, Order>, y: map<Ref, Order>, p: seq<Ref>, q: seq<Ref>)
    requires Queued(x, p) == Queued(y, q)
    ensures p == q && forall r :: r in p ==> ShareOf(x, r) == ShareOf(y, r)
  {
    if p == [] {
      assert q == [];
    } else {
      assert q != [] && Queued(x, p)[0] == Queued(y, q)[0];
      assert Queued(x, p)[1..] == Queued(x, p[1..]) && Queued(y, q)[1..] == Queued(y, q[1..]);
      SameQueue(x, y, p[1..], q[1..]);
      assert p == [p[0]] + p[1..] && q == [q[0]] + q[1..];
    }
  }

  lemma {:induction false} LevelsTell(a: Book, b: Book, l: Locate, buy: bool, ps: seq<Price>, qs: seq<Price>)
    requires LevelsOf(a, l, buy, ps) == LevelsOf(b, l, buy, qs)
    ensures ps == qs && forall p :: p in ps ==> LevelOf(a, Key(l, buy, p)) == LevelOf(b, Key(l, buy, p))
  {
    hide LevelOf;
    if ps == [] {
      assert qs == [];
    } else {
      assert qs != [];
      var x, y := LevelsOf(a, l, buy, ps), LevelsOf(b, l, buy, qs);
      assert x[0] == y[0] && x[1..] == LevelsOf(a, l, buy, ps[1..]) && y[1..] == LevelsOf(b, l, buy, qs[1..]);
      LevelPrice(a, Key(l, buy, ps[0]));
      LevelPrice(b, Key(l, buy, qs[0]));
      LevelsTell(a, b, l, buy, ps[1..], qs[1..]);
      assert ps == [ps[0]] + ps[1..] && qs == [qs[0]] + qs[1..];
    }
  }

  lemma LevelPrice(b: Book, k: Key)
    ensures LevelOf(b, k).price == k.price
  {
  }

  ghost predicate Encodable(b: Book) { ListingFits(SymbolsFrom(b, 0)) }

  ghost function BookBytes(b: Book): Bytes { ListingBytes(SymbolsFrom(b, 0)) }

  /** Equal bytes mean equal books: the same levels with the same queues, and the same size for every order in them. */
  lemma BookBytesOneWay(a: Book, b: Book, k: Key)
    requires Encodable(a) && Encodable(b) && BookBytes(a) == BookBytes(b)
    ensures (k in a.queues <==> k in b.queues) && Queue(a, k) == Queue(b, k)
    ensures forall r :: r in Queue(a, k) ==> ShareOf(a.orders, r) == ShareOf(b.orders, r)
  {
    hide ListingBytes, ListingFits, SymbolsFrom, Prices, Ascending;
    ListingOneWay(SymbolsFrom(a, 0), SymbolsFrom(b, 0));
    SameSides(a, b, 0, k.locate);
    var ps, qs := Prices(a, k.locate, k.buy), Prices(b, k.locate, k.buy);
    LevelsTell(a, b, k.locate, k.buy, Ascending(ps), Ascending(qs));
    AscendingMembers(ps);
    AscendingMembers(qs);
    PriceIn(a, k.locate, k.buy, k.price);
    PriceIn(b, k.locate, k.buy, k.price);
    if k in a.queues { SameQueue(a.orders, b.orders, Queue(a, k), Queue(b, k)); }
  }

  /** And equal books have equal bytes: nothing but the contents goes in. */
  lemma SameBookSameBytes(a: Book, b: Book)
    requires forall k :: (k in a.queues <==> k in b.queues) && Queue(a, k) == Queue(b, k)
    requires forall r :: ShareOf(a.orders, r) == ShareOf(b.orders, r)
    ensures BookBytes(a) == BookBytes(b)
  {
    SameListing(a, b, 0);
  }

  lemma {:induction false} SameListing(a: Book, b: Book, l: nat)
    requires l <= 0x1_0000
    requires forall k :: (k in a.queues <==> k in b.queues) && Queue(a, k) == Queue(b, k)
    requires forall r :: ShareOf(a.orders, r) == ShareOf(b.orders, r)
    ensures SymbolsFrom(a, l) == SymbolsFrom(b, l)
    decreases 0x1_0000 - l
  {
    hide SideOf;
    if l < 0x1_0000 {
      SameSide(a, b, l, true);
      SameSide(a, b, l, false);
      SameListing(a, b, l + 1);
    }
  }

  lemma SameSide(a: Book, b: Book, l: Locate, buy: bool)
    requires forall k :: (k in a.queues <==> k in b.queues) && Queue(a, k) == Queue(b, k)
    requires forall r :: ShareOf(a.orders, r) == ShareOf(b.orders, r)
    ensures SideOf(a, l, buy) == SideOf(b, l, buy)
  {
    hide Ascending, ShareOf;
    forall p: Price ensures p in Prices(a, l, buy) <==> p in Prices(b, l, buy) {
      PriceIn(a, l, buy, p);
      PriceIn(b, l, buy, p);
    }
    assert Prices(a, l, buy) == Prices(b, l, buy);
    SameLevels(a, b, l, buy, Ascending(Prices(a, l, buy)));
  }

  lemma {:induction false} SameLevels(a: Book, b: Book, l: Locate, buy: bool, ps: seq<Price>)
    requires forall k :: Queue(a, k) == Queue(b, k)
    requires forall r :: ShareOf(a.orders, r) == ShareOf(b.orders, r)
    ensures LevelsOf(a, l, buy, ps) == LevelsOf(b, l, buy, ps)
  {
    if ps != [] {
      var q := Queue(a, Key(l, buy, ps[0]));
      SumFrame(a.orders, b.orders, q);
      SameQueued(a.orders, b.orders, q);
      SameLevels(a, b, l, buy, ps[1..]);
    }
  }

  lemma {:induction false} SameQueued(x: map<Ref, Order>, y: map<Ref, Order>, q: seq<Ref>)
    requires forall r :: ShareOf(x, r) == ShareOf(y, r)
    ensures Queued(x, q) == Queued(y, q)
  {
    if q != [] {
      assert ShareOf(x, q[0]) == ShareOf(y, q[0]);
      SameQueued(x, y, q[1..]);
    }
  }

  // ----- the walk -----

  method Write(h: Sha256, fields: seq<Field>)
    requires h.Valid() && h.Counted()
    modifies h, h.buf
    ensures h.Valid() && h.Counted() && h.absorbed == old(h.absorbed) + Written(fields)
  {
    hide Sha256.Valid, Sha256.Counted;
    var i := 0;
    assert h.absorbed + Written(fields[..0]) == h.absorbed;
    while i < |fields|
      invariant i <= |fields| && h.Valid() && h.Counted() && h.absorbed == old(h.absorbed) + Written(fields[..i])
    {
      h.Update(ToBigEndian(fields[i].value, fields[i].width));
      WrittenMore(fields, i);
      Join(old(h.absorbed), Written(fields[..i]), ToBigEndian(fields[i].value, fields[i].width));
      i := i + 1;
    }
    assert fields[..i] == fields;
  }

  /** One level: its aggregates, then its queue in arrival order. */
  method HashLevel(h: Sha256, book: ReferenceBook, p: Price, lvl: RefLevel, ghost k: Key)
    requires h.Valid() && h.Counted() && k.price == p
    requires lvl == RefLevel(SumShares(book.orders, Queue(book.Contents(), k)), |Queue(book.Contents(), k)|,
             Queue(book.Contents(), k))
    modifies h, h.buf
    ensures h.Valid() && h.Counted()
    ensures h.absorbed == old(h.absorbed) + LevelBytes([LevelOf(book.Contents(), k)])
  {
    hide Sha256.Valid, Sha256.Counted, Written, SumShares;
    ghost var level := LevelOf(book.Contents(), k);
    QueuedLength(book.orders, lvl.fifo);
    Write(h, [Field(p, 4), Field(lvl.shares, 8), Field(lvl.orders, 4)]);
    assert LevelFields(level) == [Field(p, 4), Field(lvl.shares, 8), Field(lvl.orders, 4)];
    ghost var start := h.absorbed;
    var i := 0;
    assert start + OrderBytes(Queued(book.orders, lvl.fifo[..0])) == start;
    while i < |lvl.fifo|
      invariant i <= |lvl.fifo| && h.Valid() && h.Counted()
      invariant h.absorbed == start + OrderBytes(Queued(book.orders, lvl.fifo[..i]))
    {
      var r := lvl.fifo[i];
      var size := if r in book.orders then book.orders[r].shares else 0;
      Write(h, [Field(r, 8), Field(size, 4)]);
      QueuedMore(book.orders, lvl.fifo, i);
      Join(start, OrderBytes(Queued(book.orders, lvl.fifo[..i])), Written(OrderFields(QueuedOrder(r, size))));
      i := i + 1;
    }
    assert lvl.fifo[..i] == lvl.fifo;
    OneLevel(level);
    Join(old(h.absorbed), Written(LevelFields(level)), OrderBytes(level.orders));
  }

  lemma OneLevel(l: Level)
    ensures LevelBytes([l]) == Written(LevelFields(l)) + OrderBytes(l.orders)
  {
    hide Written, OrderBytes;
    assert [l][1..] == [] && (Written(LevelFields(l)) + OrderBytes(l.orders)) + [] ==
                               Written(LevelFields(l)) + OrderBytes(l.orders);
  }

  lemma {:induction false} QueuedLength(orders: map<Ref, Order>, q: seq<Ref>)
    ensures |Queued(orders, q)| == |q|
  {
    if q != [] { QueuedLength(orders, q[1..]); }
  }

  lemma QueuedMore(orders: map<Ref, Order>, q: seq<Ref>, i: nat)
    requires i < |q|
    ensures var o := QueuedOrder(q[i], if q[i] in orders then orders[q[i]].shares else 0);
            OrderBytes(Queued(orders, q[..i + 1])) == OrderBytes(Queued(orders, q[..i])) + Written(OrderFields(o))
  {
    var o := QueuedOrder(q[i], if q[i] in orders then orders[q[i]].shares else 0);
    QueuedAppend(orders, q[..i], q[i]);
    assert q[..i + 1] == q[..i] + [q[i]];
    OrderBytesAppend(Queued(orders, q[..i]), o);
  }

  lemma {:induction false} QueuedAppend(orders: map<Ref, Order>, q: seq<Ref>, r: Ref)
    ensures Queued(orders, q + [r]) == Queued(orders, q) + [QueuedOrder(r, if r in orders then orders[r].shares else 0)]
  {
    if q == [] {
      assert q + [r] == [r] && [r][1..] == [];
    } else {
      QueuedAppend(orders, q[1..], r);
      assert (q + [r])[1..] == q[1..] + [r];
    }
  }

  lemma {:induction false} OrderBytesAppend(os: seq<QueuedOrder>, o: QueuedOrder)
    ensures OrderBytes(os + [o]) == OrderBytes(os) + Written(OrderFields(o))
  {
    hide Written, OrderFields;
    if os == [] {
      assert os + [o] == [o] && [o][1..] == [];
    } else {
      OrderBytesAppend(os[1..], o);
      assert (os + [o])[1..] == os[1..] + [o];
      Join(Written(OrderFields(os[0])), OrderBytes(os[1..]), Written(OrderFields(o)));
    }
  }

  lemma {:induction false} LevelBytesAppend(ls: seq<Level>, l: Level)
    ensures LevelBytes(ls + [l]) == LevelBytes(ls) + LevelBytes([l])
  {
    hide Written, OrderBytes, LevelFields;
    OneLevel(l);
    if ls == [] {
      assert ls + [l] == [l];
    } else {
      LevelBytesAppend(ls[1..], l);
      assert (ls + [l])[1..] == ls[1..] + [l];
      Join(Written(LevelFields(ls[0])) + OrderBytes(ls[0].orders), LevelBytes(ls[1..]), LevelBytes([l]));
    }
  }

  lemma LevelsMore(b: Book, l: Locate, buy: bool, ps: seq<Price>, p: Price)
    ensures LevelsOf(b, l, buy, ps + [p]) == LevelsOf(b, l, buy, ps) + [LevelOf(b, Key(l, buy, p))]
  {
    hide LevelOf;
    if ps == [] {
      assert ps + [p] == [p] && [p][1..] == [];
    } else {
      LevelsMore(b, l, buy, ps[1..], p);
      assert (ps + [p])[1..] == ps[1..] + [p];
    }
  }

  lemma AscendingNext(done: seq<Price>, left: set<Price>, p: Price)
    requires IsEnd(left, false, p)
    ensures done + Ascending(left) == (done + [p]) + Ascending(left - {p})
  {
    FirstIs(left, p);
    assert done + ([p] + Ascending(left - {p})) == (done + [p]) + Ascending(left - {p});
  }

  lemma {:induction false} LevelsLength(b: Book, l: Locate, buy: bool, ps: seq<Price>)
    ensures |LevelsOf(b, l, buy, ps)| == |ps|
  {
    if ps != [] { LevelsLength(b, l, buy, ps[1..]); }
  }

  /** One side of a symbol: its tag, how many levels, and the levels by ascending price. */
  method HashSide(h: Sha256, book: ReferenceBook, locate: Locate, buy: bool)
    requires h.Valid() && h.Counted() && book.Valid() && locate in book.symbols
    modifies h, h.buf
    ensures h.Valid() && h.Counted()
    ensures h.absorbed == old(h.absorbed) + SideBytes(if buy then BUY else SELL, SideOf(book.Contents(), locate, buy))
  {
    hide Sha256.Valid, Sha256.Counted, Written, LevelBytes, ReferenceBook.Valid, LevelOf, Ascending;
    ghost var b, start := book.Contents(), h.absorbed;
    var side := book.symbols[locate].Side(buy);
    SideIsPrices(book, locate, buy);
    AscendingMembers(side.Keys);
    LevelsLength(b, locate, buy, Ascending(side.Keys));
    var tag := if buy then BUY else SELL;
    Write(h, [Field(tag, 1), Field(|side|, 4)]);
    var left := side.Keys;
    ghost var done, all := [], Ascending(side.Keys);
    ghost var fields := Written(SideFields(tag, SideOf(b, locate, buy)));
    assert h.absorbed == start + fields;
    NoLevels(start + fields);
    assert [] + all == all;
    while left != {}
      invariant left <= side.Keys && h.Valid() && h.Counted() && all == done + Ascending(left)
      invariant h.absorbed == (start + fields) + LevelBytes(LevelsOf(b, locate, buy, done))
      decreases left
    {
      var p := EndOf(left, false);
      SideLevel(book, locate, buy, p);
      HashLevel(h, book, p, side[p], Key(locate, buy, p));
      AscendingNext(done, left, p);
      LevelsMore(b, locate, buy, done, p);
      LevelBytesAppend(LevelsOf(b, locate, buy, done), LevelOf(b, Key(locate, buy, p)));
      Join(start + fields, LevelBytes(LevelsOf(b, locate, buy, done)), LevelBytes([LevelOf(b, Key(locate, buy, p))]));
      done, left := done + [p], left - {p};
    }
    NoneAscending(done);
    Join(start, fields, LevelBytes(SideOf(b, locate, buy)));
  }

  lemma NoLevels(start: Bytes)
    ensures start + LevelBytes([]) == start
  {
  }

  lemma NoneAscending(done: seq<Price>)
    ensures done + Ascending({}) == done
  {
  }

  lemma SideIsPrices(book: ReferenceBook, locate: Locate, buy: bool)
    requires book.Valid()
    ensures SymbolOf(book.symbols, locate).Side(buy).Keys == Prices(book.Contents(), locate, buy)
  {
    hide ReferenceBook.Valid;
    book.SideKeys(locate, buy);
    forall p: Price
      ensures p in SymbolOf(book.symbols, locate).Side(buy) <==> p in Prices(book.Contents(), locate, buy) {
      PriceIn(book.Contents(), locate, buy, p);
    }
  }

  lemma SideLevel(book: ReferenceBook, locate: Locate, buy: bool, p: Price)
    requires book.Valid() && locate in book.symbols && p in book.symbols[locate].Side(buy)
    ensures var q := Queue(book.Contents(), Key(locate, buy, p));
            book.symbols[locate].Side(buy)[p] == RefLevel(SumShares(book.orders, q), |q|, q)
  {
    hide WellFormed, SumShares;
    assert ReferenceBooks.LevelAt(book.symbols, Key(locate, buy, p)) ==
           ReferenceBooks.LevelFrom(book.Contents(), Key(locate, buy, p));
  }

  /** The digest of a whole book: symbols by locate code, bids before asks. */
  method HashBook(book: ReferenceBook) returns (digest: Bytes)
    requires book.Valid()
    ensures digest == Digest(Hash(BookBytes(book.Contents())))
  {
    hide Sha256.Valid, Sha256.Counted, ReferenceBook.Valid, Hash, Digest, SymbolsFrom, SideOf, SideBytes, Written;
    var h := new Sha256();
    ghost var b := book.Contents();
    var l: nat := 0;
    assert [] + ListingBytes(SymbolsFrom(b, 0)) == ListingBytes(SymbolsFrom(b, 0));
    while l <= 0xFFFF
      invariant l <= 0x1_0000 && h.Valid() && h.Counted() && fresh(h) && fresh(h.buf)
      invariant h.absorbed + ListingBytes(SymbolsFrom(b, l)) == BookBytes(b)
    {
      ListedHere(b, l);
      HashSymbol(h, book, l);
      l := l + 1;
    }
    NothingAfter(b);
    assert h.absorbed + [] == h.absorbed;
    digest := h.Finish();
  }

  lemma NothingAfter(b: Book)
    ensures ListingBytes(SymbolsFrom(b, 0x1_0000)) == []
  {
  }

  method HashSymbol(h: Sha256, book: ReferenceBook, l: Locate)
    requires h.Valid() && h.Counted() && book.Valid()
    modifies h, h.buf
    ensures h.Valid() && h.Counted()
    ensures h.absorbed + ListingBytes(SymbolsFrom(book.Contents(), l + 1)) ==
              old(h.absorbed) + ListingBytes(SymbolsFrom(book.Contents(), l))
  {
    hide Sha256.Valid, Sha256.Counted, ReferenceBook.Valid, SymbolsFrom, SideBytes, Written, Ascending;
    ghost var b := book.Contents();
    SideIsPrices(book, l, true);
    SideIsPrices(book, l, false);
    EmptySide(b, l, true);
    EmptySide(b, l, false);
    if l !in book.symbols || (book.symbols[l].bids == map[] && book.symbols[l].asks == map[]) {
      Unlisted(b, l);
      return;
    }
    Write(h, [Field(l, 4)]);
    ghost var s := Listed(l, SideOf(b, l, true), SideOf(b, l, false));
    assert SymbolFields(s) == [Field(l, 4)];
    HashSide(h, book, l, true);
    HashSide(h, book, l, false);
    ListedNow(b, l);
    Gather(old(h.absorbed), Written(SymbolFields(s)), SideBytes(BUY, s.bids), SideBytes(SELL, s.asks),
           ListingBytes(SymbolsFrom(b, l + 1)));
  }

  lemma EmptySide(b: Book, l: Locate, buy: bool)
    ensures SideOf(b, l, buy) == [] <==> Prices(b, l, buy) == {}
  {
    AscendingMembers(Prices(b, l, buy));
    LevelsLength(b, l, buy, Ascending(Prices(b, l, buy)));
  }

  lemma Unlisted(b: Book, l: Locate)
    requires SideOf(b, l, true) == SideOf(b, l, false) == []
    ensures SymbolsFrom(b, l) == SymbolsFrom(b, l + 1)
  {
    hide SideOf;
    assert [] + SymbolsFrom(b, l + 1) == SymbolsFrom(b, l + 1);
  }

  lemma ListedNow(b: Book, l: Locate)
    requires SideOf(b, l, true) != [] || SideOf(b, l, false) != []
    ensures ListingBytes(SymbolsFrom(b, l)) ==
              SymbolBytes(Listed(l, SideOf(b, l, true), SideOf(b, l, false))) + ListingBytes(SymbolsFrom(b, l + 1))
  {
    hide SideOf, SymbolBytes;
    var s := Listed(l, SideOf(b, l, true), SideOf(b, l, false));
    assert ([s] + SymbolsFrom(b, l + 1))[1..] == SymbolsFrom(b, l + 1);
  }

  lemma Gather(a: Bytes, x: Bytes, y: Bytes, z: Bytes, r: Bytes)
    ensures (((a + x) + y) + z) + r == a + ((x + (y + z)) + r)
  {
  }
}
