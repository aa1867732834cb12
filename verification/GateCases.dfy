/** A stream through the book and its gate: whether a halt excuses a cross depends on the market it names. */
module GateCases {
  import opened BookTypes
  import opened BookSpec
  import opened Gates
  import opened ReferenceBooks

  /** A symbol trades, some market halts it, and then a bid is crossed by an offer. */
  function HaltedThenCrossed(market: u8): seq<Message> {
    [TradingAction(1, 'T' as u8), OperationalHalt(1, market, 'H' as u8), Add(1, 1, BUY, 200, 5),
     Add(1, 2, SELL, 100, 5)]
  }

  const ALONE := Book(map[1 := Order(1, BUY, 200, 5)], map[Key(1, true, 200) := [1]])
  const CROSSED := Book(map[1 := Order(1, BUY, 200, 5), 2 := Order(1, SELL, 100, 5)],
    map[Key(1, true, 200) := [1], Key(1, false, 100) := [2]])

  lemma Inside()
    ensures Observe(ALONE, 1) == OneSided && Observe(CROSSED, 1) == CrossedAt
  {
    hide Observe;
    ObservedExactly(ALONE, 1);
    ObservedExactly(CROSSED, 1);
    assert BidAt(CROSSED, 1, 200) && OfferAt(CROSSED, 1, 100);
  }

  /** One message: what the book becomes, and what the gate is shown. */
  lemma BooksOf(s: State, t: State, market: u8, venue: u8)
    requires s.book == EMPTY_BOOK && t.book == ALONE
    ensures Step(s, TradingAction(1, 'T' as u8), false).book == EMPTY_BOOK
    ensures Step(s, OperationalHalt(1, market, 'H' as u8), false).book == EMPTY_BOOK
    ensures Step(s, Add(1, 1, BUY, 200, 5), false).book == ALONE
    ensures Step(t, Add(1, 2, SELL, 100, 5), false).book == CROSSED
    ensures GateEvents(s, TradingAction(1, 'T' as u8), 1, venue) == [Action(1, 1, 'T' as u8)]
    ensures GateEvents(s, OperationalHalt(1, market, 'H' as u8), 2, venue)
            == if market == venue then [Halted(1, 2, 'H' as u8)] else []
    ensures GateEvents(s, Add(1, 1, BUY, 200, 5), 3, venue) == [Looked(1, 3, OneSided)]
    ensures GateEvents(t, Add(1, 2, SELL, 100, 5), 4, venue) == [Looked(1, 4, CrossedAt)]
  {
    hide Observe, Append;
    Inside();
    AppendAlone(EMPTY_BOOK, 1, Order(1, BUY, 200, 5));
    AppendAlone(ALONE, 2, Order(1, SELL, 100, 5));
  }

  lemma EventsAre(market: u8, venue: u8)
    ensures EventsOf(HaltedThenCrossed(market), [1, 2, 3, 4], venue) ==
            [Action(1, 1, 'T' as u8)] + (if market == venue then [Halted(1, 2, 'H' as u8)] else [])
            + [Looked(1, 3, OneSided)] + [Looked(1, 4, CrossedAt)]
  {
    hide Step, GateEvents, Replayed, EventsOf;
    var run, times: seq<u64> := HaltedThenCrossed(market), [1, 2, 3, 4];
    assert run[..4] == run && times[..4] == times;
    NothingSeen(run, times, venue);
    BooksOf(Replayed(run[..0], false), Replayed(run[..0], false).(book := ALONE), market, venue);
    ReplayedOneMore(run, 0, false);
    ReplayedOneMore(run, 1, false);
    ReplayedOneMore(run, 2, false);
    BooksOf(Replayed(run[..1], false), Replayed(run[..1], false).(book := ALONE), market, venue);
    BooksOf(Replayed(run[..2], false), Replayed(run[..2], false).(book := ALONE), market, venue);
    BooksOf(Replayed(run[..2], false), Replayed(run[..3], false), market, venue);
    EventsOneMore(run, times, venue, 0);
    EventsOneMore(run, times, venue, 1);
    EventsOneMore(run, times, venue, 2);
    EventsOneMore(run, times, venue, 3);
  }

  lemma NothingSeen(run: seq<Message>, times: seq<u64>, venue: u8)
    requires |run| == |times|
    ensures EventsOf(run[..0], times[..0], venue) == [] && Replayed(run[..0], false) == INITIAL
  {
  }

  /** Halted on the venue that is being replayed, the cross is excused; halted on another, it fails the gate. */
  lemma OnlyItsOwnMarketExcuses(market: u8, venue: u8)
    ensures After(EventsOf(HaltedThenCrossed(market), [1, 2, 3, 4], venue)).crossed
            == if market == venue then Buckets(1, 0, 1, 0, 0, 0) else Buckets(1, 0, 0, 0, 0, 1)
  {
    hide EventsOf, After;
    EventsAre(market, venue);
    var none: seq<Event> := [];
    NothingCounted(none);
    assert none[..0] == none;
    var a, h, p, x := Action(1, 1, 'T' as u8), Halted(1, 2, 'H' as u8), Looked(1, 3, OneSided), Looked(1, 4, CrossedAt);
    var one := none + [a];
    var two := one + if market == venue then [h] else [];
    AfterThen(none, a);
    if market == venue { AfterThen(one, h); } else { assert two == one; }
    AfterThen(two, p);
    AfterThen(two + [p], x);
    assert one == [a];
    assert EventsOf(HaltedThenCrossed(market), [1, 2, 3, 4], venue) == two + [p] + [x];
    OneSidedLook(After(two), p);
  }

  lemma OneSidedLook(g: Gate, p: Event)
    requires p == Looked(1, 3, OneSided)
    ensures Gates.Next(g, p) == g
  {
  }
}
