/** The harness that drives both books with one message stream and compares them. */
module Differentials {
  import opened BookTypes
  import opened OrderedKeys
  import opened BookSpec
  import opened ReferenceBooks
  import opened FastBooks
  import opened OrderIndexes
  import opened FastSides
  import Bits

  datatype Field =
    | LevelPresent | LevelShares | LevelOrders | LevelFifo
    | HasBid | HasAsk | BestBid | BestAsk
    | LiveOrderCount | InvariantViolations

  /** The first disagreement: after how many messages, where, and in what. */
  datatype Divergence = Divergence(message: nat, locate: Locate, side: u8, price: Price, what: Field)

  /** The full comparison stops before this locate code. */
  const LAST_LOCATE: Locate := 0xFFFF

  // ----- what the full comparison establishes -----

  /** What the full comparison of two books looks at: every level of the first below the last locate code, the best
      prices there, and the live order counts. `known` are the locate codes the first book has materialised. */
  ghost predicate Compares(a: Book, b: Book, known: set<Locate>) {
    && (forall k :: k in a.queues && k.locate < LAST_LOCATE ==> SnapshotOf(a, k) == SnapshotOf(b, k))
    && (forall l, buy :: l in known && l < LAST_LOCATE ==> Best(a, l, buy) == Best(b, l, buy))
    && |a.orders| == |b.orders|
  }

  /** The same levels with the same aggregates and the same queues. */
  ghost predicate SameLevels(a: Book, b: Book) { forall k :: SnapshotOf(a, k) == SnapshotOf(b, k) }

  ghost predicate NothingAtLast(b: Book) { forall r :: r in b.orders ==> b.orders[r].locate < LAST_LOCATE }

  /** Levels that agree one way, with equal live counts, agree both ways: an extra level in the second book would hold
      an order the first does not have. */
  lemma FullCompareIsSound(a: Book, b: Book, known: set<Locate>)
    requires WellFormed(a) && WellFormed(b) && NothingAtLast(a) && Compares(a, b, known)
    ensures SameLevels(a, b) && a.orders.Keys == b.orders.Keys
  {
    forall r | r in a.orders ensures r in b.orders && KeyOf(b.orders[r]) == KeyOf(a.orders[r]) {
      var k := KeyOf(a.orders[r]);
      OwnQueue(a, r);
      KeyOfOrder(a.orders[r]);
      assert SnapshotOf(a, k) == SnapshotOf(b, k);
      assert Lists(b, k, b.queues[k]);
    }
    assert |a.orders.Keys| == |b.orders.Keys|;
    NoBigger(a.orders.Keys, b.orders.Keys);
    forall k ensures SnapshotOf(a, k) == SnapshotOf(b, k) {
      if k in b.queues {
        var r := b.queues[k][0];
        assert r in b.queues[k] && Lists(b, k, b.queues[k]);
        OwnQueue(a, r);
        KeyOfOrder(a.orders[r]);
      } else if k in a.queues {
        var r := a.queues[k][0];
        assert r in a.queues[k] && Lists(a, k, a.queues[k]);
        KeyOfOrder(a.orders[r]);
      }
    }
  }

  /** Both directions: without orders at the last locate code the comparison passes exactly on books with the same
      levels. */
  lemma FullCompareIsExact(a: Book, b: Book, known: set<Locate>)
    requires WellFormed(a) && WellFormed(b) && NothingAtLast(a)
    ensures Compares(a, b, known) <==> SameLevels(a, b) && |a.orders| == |b.orders|
  {
    if Compares(a, b, known) {
      FullCompareIsSound(a, b, known);
    } else if SameLevels(a, b) {
      forall k ensures k in a.queues <==> k in b.queues { assert SnapshotOf(a, k) == SnapshotOf(b, k); }
      forall l, buy ensures Best(a, l, buy) == Best(b, l, buy) { SameBest(a, b, l, buy); }
    }
  }

  lemma SameBest(a: Book, b: Book, l: Locate, buy: bool)
    requires forall k :: k in a.queues <==> k in b.queues
    ensures Best(a, l, buy) == Best(b, l, buy)
  {
    forall p ensures IsBest(a, l, buy, p) <==> IsBest(b, l, buy, p) {}
    if p :| IsBest(a, l, buy, p) {
      BestIs(a, l, buy, p);
      BestIs(b, l, buy, p);
    }
  }

  /** The condition is exact: with an order resting at the last locate code, the same book with another size for that
      order passes the comparison too. */
  lemma BlindExactlyAtLast(a: Book, known: set<Locate>)
    requires WellFormed(a)
    ensures NothingAtLast(a) <==> forall b :: WellFormed(b) && Compares(a, b, known) ==> SameLevels(a, b)
  {
    hide WellFormed, Compares, SameLevels;
    if NothingAtLast(a) {
      forall b | WellFormed(b) && Compares(a, b, known) ensures SameLevels(a, b) { FullCompareIsSound(a, b, known); }
    } else {
      var r :| r in a.orders && a.orders[r].locate >= LAST_LOCATE;
      var b := Resized(a, r);
      ResizedPasses(a, r, known);
      assert WellFormed(b) && Compares(a, b, known) && !SameLevels(a, b);
    }
  }

  /** The book with another size for one of its orders. */
  function Resized(b: Book, r: Ref): Book
    requires r in b.orders
  {
    b.(orders := b.orders[r := b.orders[r].(shares := if b.orders[r].shares == 0 then 1 else 0)])
  }

  lemma ResizedPasses(a: Book, r: Ref, known: set<Locate>)
    requires WellFormed(a) && r in a.orders && a.orders[r].locate == LAST_LOCATE
    ensures var b := Resized(a, r); WellFormed(b) && Compares(a, b, known) && !SameLevels(a, b)
  {
    hide WellFormed, Queue, Resized;
    var b := Resized(a, r);
    ResizedWellFormed(a, r);
    KeyOfOrder(a.orders[r]);
    forall j | j in a.queues && j != KeyOf(a.orders[r]) ensures SnapshotOf(a, j) == SnapshotOf(b, j) {
      ResizedElsewhere(a, r, j);
    }
    forall l, buy ensures Best(a, l, buy) == Best(b, l, buy) { SameBest(a, b, l, buy); }
    ResizedShows(a, r);
  }

  lemma ResizedWellFormed(a: Book, r: Ref)
    requires WellFormed(a) && r in a.orders
    ensures var b := Resized(a, r); WellFormed(b) && b.queues == a.queues && |b.orders| == |a.orders|
  {
    hide Queue, Distinct;
    var b := Resized(a, r);
    assert a.orders.Keys == b.orders.Keys && |a.orders.Keys| == |b.orders.Keys|;
    assert forall x :: x in a.orders ==> KeyOf(b.orders[x]) == KeyOf(a.orders[x]);
    forall k ensures Queue(b, k) == Queue(a, k) { SameQueues(a, b, k); }
  }

  lemma SameQueues(a: Book, b: Book, k: Key)
    requires a.queues == b.queues
    ensures Queue(a, k) == Queue(b, k)
  {
  }

  lemma ResizedElsewhere(a: Book, r: Ref, j: Key)
    requires WellFormed(a) && r in a.orders && j != KeyOf(a.orders[r])
    ensures SnapshotOf(a, j) == SnapshotOf(Resized(a, r), j)
  {
    hide SumShares, KeyOf;
    if j in a.queues {
      assert Lists(a, j, a.queues[j]);
      SumFrame(a.orders, Resized(a, r).orders, a.queues[j]);
    }
  }

  lemma ResizedShows(a: Book, r: Ref)
    requires WellFormed(a) && r in a.orders
    ensures SnapshotOf(a, KeyOf(a.orders[r])) != SnapshotOf(Resized(a, r), KeyOf(a.orders[r]))
  {
    hide WellFormed, Without, KeyOf;
    var b := Resized(a, r);
    OwnQueue(a, r);
    var q := a.queues[KeyOf(a.orders[r])];
    SumWithout(a.orders, q, r);
    SumWithout(b.orders, q, r);
    WithoutMembers(q, r);
    SumFrame(a.orders, b.orders, Without(q, r));
  }

  /** The last locate code is a blind spot: two books that differ only there pass the comparison. */
  lemma LastLocateIsUnseen()
    ensures var a := Append(EMPTY_BOOK, 1, Order(LAST_LOCATE, BUY, 100, 5));
            var b := Append(EMPTY_BOOK, 2, Order(LAST_LOCATE, BUY, 100, 5));
            WellFormed(a) && WellFormed(b) && Compares(a, b, {}) && !SameLevels(a, b)
  {
    var o := Order(LAST_LOCATE, BUY, 100, 5);
    AppendWellFormed(EMPTY_BOOK, 1, o);
    AppendWellFormed(EMPTY_BOOK, 2, o);
    var a, b := Append(EMPTY_BOOK, 1, o), Append(EMPTY_BOOK, 2, o);
    assert SnapshotOf(a, KeyOf(o)).fifo == [1] && SnapshotOf(b, KeyOf(o)).fifo == [2];
    assert |a.orders| == 1 && |b.orders| == 1;
  }

  // ----- the second look of a replace -----

  /** The looks that count the same thing. */
  predicate SameTally(o: Observation, p: Observation) { o.CrossedAt? == p.CrossedAt? && o.LockedAt? == p.LockedAt? }

  /** The books always agree; the two readings of a replace differ, if at all, in the counters of its second look. They
      agree exactly when the message's symbol and the retained one show the same thing. */
  lemma SecondLook(s: State, m: Message)
    ensures Step(s, m, true).book == Step(s, m, false).book
            && Step(s, m, true).afterHours == Step(s, m, false).afterHours
    ensures Step(s, m, true) == Step(s, m, false) <==>
              (m.Replace? && m.oldRef in s.book.orders ==>
                 SameTally(Observe(Step(s, m, true).book, s.book.orders[m.oldRef].locate),
                           Observe(Step(s, m, true).book, m.locate)))
  {
    hide Observe, Erase, Append, Best;
    if m.Replace? && m.oldRef in s.book.orders {
      var b := Step(s, m, true).book;
      var c := Step(s, m, true).counters;
      assert Step(s, m, false).book == b;
    }
  }

  /** A replace that names the symbol of the order it replaces. */
  predicate NamesRetained(s: State, m: Message) {
    m.Replace? && m.oldRef in s.book.orders ==> m.locate == s.book.orders[m.oldRef].locate
  }

  // ----- runs -----

  predicate Sized(m: Message) { m.Add? || m.Replace? ==> m.shares > 0 }

  /** No add of the run is refused by a book of that size. */
  ghost predicate WithinCapacity(run: seq<Message>, capacity: nat, symbols: nat) {
    forall i :: 0 <= i < |run| ==> !RefusesMessage(Replayed(run[..i], true).book, run[i], capacity, symbols)
  }

  /** Every added order is of positive size. */
  predicate PositiveSizes(run: seq<Message>) { forall i :: 0 <= i < |run| ==> Sized(run[i]) }

  lemma {:induction false} PositiveRun(run: seq<Message>, n: nat)
    requires PositiveSizes(run) && n <= |run|
    ensures Positive(Replayed(run[..n], true).book)
  {
    hide Positive, Step;
    if n == 0 {
      NothingIsPositive();
    } else {
      PositiveRun(run, n - 1);
      ReplayedOneMore(run, n - 1, true);
      StepPositive(Replayed(run[..n - 1], true), run[n - 1], true);
    }
  }

  lemma NothingIsPositive()
    ensures Positive(EMPTY_BOOK)
  {
  }

  /** The books of the two readings never differ. */
  lemma {:induction false} ReadingsShareBook(run: seq<Message>)
    ensures Replayed(run, true).book == Replayed(run, false).book
            && Replayed(run, true).afterHours == Replayed(run, false).afterHours
  {
    if run != [] {
      ReadingsShareBook(run[..|run| - 1]);
      SameBookStep(Replayed(run[..|run| - 1], true), Replayed(run[..|run| - 1], false), run[|run| - 1]);
    }
  }

  lemma SameBookStep(s: State, t: State, m: Message)
    requires s.book == t.book && s.afterHours == t.afterHours
    ensures Step(s, m, true).book == Step(t, m, false).book
            && Step(s, m, true).afterHours == Step(t, m, false).afterHours
  {
    hide Observe, Erase, Append, Deduct;
  }

  /** A replace's two looks count the same thing: it names the symbol of the order it replaces, or a symbol that shows
      the same in the book before the message, without the new reference, as the retained one does after it. */
  ghost predicate LooksAlike(b: Book, m: Message) {
    m.Replace? && m.oldRef in b.orders ==>
      var retained := b.orders[m.oldRef].locate;
      m.locate == retained
      || SameTally(Observe(AfterReplacing(b, m), retained), Observe(Spared(b, m.newRef), m.locate))
  }

  lemma SameAtLocate(a: Book, b: Book, l: Locate)
    requires forall buy, p :: Key(l, buy, p) in a.queues <==> Key(l, buy, p) in b.queues
    ensures Observe(a, l) == Observe(b, l)
  {
    forall buy ensures Best(a, l, buy) == Best(b, l, buy) {
      forall p ensures IsBest(a, l, buy, p) <==> IsBest(b, l, buy, p) {}
      if p :| IsBest(a, l, buy, p) {
        BestIs(a, l, buy, p);
        BestIs(b, l, buy, p);
      }
    }
  }

  /** At other symbols than the retained one a replace changes nothing, but for a live order its new reference names. */
  lemma ReplacedElsewhere(b: Book, m: Message)
    requires WellFormed(b) && m.Replace? && m.oldRef in b.orders && m.locate != b.orders[m.oldRef].locate
    ensures Observe(AfterReplacing(b, m), m.locate) == Observe(Spared(b, m.newRef), m.locate)
  {
    hide WellFormed, Observe, Without;
    var b1 := BookSpec.Erase(b, m.oldRef);
    EraseWellFormed(b, m.oldRef);
    ErasedOrders(b, m.oldRef);
    forall buy, p
      ensures Key(m.locate, buy, p) in AfterReplacing(b, m).queues
              <==> Key(m.locate, buy, p) in Spared(b, m.newRef).queues
    {
      var k := Key(m.locate, buy, p);
      KeyOfOrder(b.orders[m.oldRef]);
      assert k in b1.queues <==> k in b.queues;
      assert k in b.queues ==> b1.queues[k] == b.queues[k];
      if m.newRef == m.oldRef { assert k in Spared(b, m.newRef).queues <==> k in b.queues; }
    }
    SameAtLocate(AfterReplacing(b, m), Spared(b, m.newRef), m.locate);
  }

  /** The two readings of a message differ exactly when its two looks count different things. */
  lemma ReadingsDiffer(s: State, m: Message)
    requires WellFormed(s.book)
    ensures Step(s, m, true) == Step(s, m, false) <==> LooksAlike(s.book, m)
  {
    hide WellFormed, Observe, SameTally;
    SecondLook(s, m);
    if m.Replace? && m.oldRef in s.book.orders {
      StepBook(s, m, true);
      if m.locate != s.book.orders[m.oldRef].locate {
        ReplacedElsewhere(s.book, m);
      } else {
        LikeItself(Observe(Step(s, m, true).book, m.locate));
      }
    }
  }

  lemma LikeItself(o: Observation)
    ensures SameTally(o, o)
  {
  }

  lemma {:induction false} ReplayedWellFormed(run: seq<Message>, lookAtRetained: bool)
    ensures WellFormed(Replayed(run, lookAtRetained).book)
  {
    hide Step, WellFormed;
    if run == [] {
      NothingIsWellFormed();
    } else {
      ReplayedWellFormed(run[..|run| - 1], lookAtRetained);
      StepWellFormed(Replayed(run[..|run| - 1], lookAtRetained), run[|run| - 1], lookAtRetained);
    }
  }

  lemma NothingIsWellFormed()
    ensures WellFormed(EMPTY_BOOK)
  {
  }

  /** The counters agree after every message exactly when every replace's two looks count the same thing. */
  lemma {:induction false} CountersAgreeExactly(run: seq<Message>)
    ensures (forall n :: 0 <= n <= |run| ==> Replayed(run[..n], true) == Replayed(run[..n], false)) <==>
            (forall i :: 0 <= i < |run| ==> LooksAlike(Replayed(run[..i], false).book, run[i]))
  {
    hide LooksAlike, Replayed, Step;
    if forall n :: 0 <= n <= |run| ==> Replayed(run[..n], true) == Replayed(run[..n], false) {
      forall i | 0 <= i < |run| ensures LooksAlike(Replayed(run[..i], false).book, run[i]) {
        AgreesOneMore(run, i);
        assert Replayed(run[..i + 1], true) == Replayed(run[..i + 1], false);
      }
    }
    if forall i :: 0 <= i < |run| ==> LooksAlike(Replayed(run[..i], false).book, run[i]) {
      forall n | 0 <= n <= |run| ensures Replayed(run[..n], true) == Replayed(run[..n], false) { AgreesUpTo(run, n); }
    }
  }

  lemma AgreesOneMore(run: seq<Message>, i: nat)
    requires i < |run| && Replayed(run[..i], true) == Replayed(run[..i], false)
    ensures Replayed(run[..i + 1], true) == Replayed(run[..i + 1], false)
            <==> LooksAlike(Replayed(run[..i], false).book, run[i])
  {
    hide Replayed, Step, LooksAlike, WellFormed;
    ReplayedOneMore(run, i, true);
    ReplayedOneMore(run, i, false);
    ReplayedWellFormed(run[..i], false);
    ReadingsDiffer(Replayed(run[..i], false), run[i]);
  }

  lemma {:induction false} AgreesUpTo(run: seq<Message>, n: nat)
    requires n <= |run| && forall i :: 0 <= i < |run| ==> LooksAlike(Replayed(run[..i], false).book, run[i])
    ensures Replayed(run[..n], true) == Replayed(run[..n], false)
    decreases n
  {
    hide LooksAlike;
    if n > 0 {
      AgreesUpTo(run, n - 1);
      AgreesOneMore(run, n - 1);
    }
  }

  /** Naming the retained symbol is enough. */
  lemma NamingRetainedAgrees(run: seq<Message>)
    requires forall i :: 0 <= i < |run| ==> NamesRetained(Replayed(run[..i], false), run[i])
    ensures Replayed(run, true) == Replayed(run, false)
  {
    hide Step, Observe;
    forall i | 0 <= i < |run| ensures LooksAlike(Replayed(run[..i], false).book, run[i]) {
      assert NamesRetained(Replayed(run[..i], false), run[i]);
    }
    AgreesUpTo(run, |run|);
    assert run[..|run|] == run;
  }

  lemma CrossedPair(b: Book)
    requires b.queues.Keys == {Key(1, true, 200), Key(1, false, 100)}
    ensures Observe(b, 1) == CrossedAt && Observe(b, 2) == OneSided
  {
    BestIs(b, 1, true, 200);
    BestIs(b, 1, false, 100);
    NoBest(b, 2, true);
  }

  /** A bid above an offer: the second of two adds crosses the symbol. */
  lemma TwoAdds(retained: bool) returns (s: State)
    ensures s == Step(Step(INITIAL, Add(1, 1, BUY, 200, 5), retained), Add(1, 2, SELL, 100, 5), retained)
    ensures s.book == Book(map[1 := Order(1, BUY, 200, 5), 2 := Order(1, SELL, 100, 5)],
                           map[Key(1, true, 200) := [1], Key(1, false, 100) := [2]])
    ensures s.counters.crossed == 1
  {
    hide Observe, Append;
    AppendAlone(EMPTY_BOOK, 1, Order(1, BUY, 200, 5));
    var s1 := Step(INITIAL, Add(1, 1, BUY, 200, 5), retained);
    AppendAlone(s1.book, 2, Order(1, SELL, 100, 5));
    OneSideOnly(s1.book);
    s := Step(s1, Add(1, 2, SELL, 100, 5), retained);
    CrossedPair(s.book);
  }

  lemma OneSideOnly(b: Book)
    requires b.queues.Keys == {Key(1, true, 200)}
    ensures Observe(b, 1) == OneSided
  {
    NoBest(b, 1, false);
  }

  /** A replace that names another symbol can make the counters part: here the retained symbol is crossed and the one
      named is empty. */
  lemma NamingAnotherParts()
    ensures var run := [Add(1, 1, BUY, 200, 5), Add(1, 2, SELL, 100, 5), Replace(2, 1, 3, 200, 5)];
            Replayed(run, true).counters.crossed == Replayed(run, false).counters.crossed + 1
  {
    hide Replayed, Step;
    var run := [Add(1, 1, BUY, 200, 5), Add(1, 2, SELL, 100, 5), Replace(2, 1, 3, 200, 5)];
    forall retained ensures Replayed(run, retained).counters.crossed == if retained then 3 else 2 {
      var s2 := TwoAdds(retained);
      Replayed3(run, retained);
      ReplaceBid(s2, retained);
    }
  }

  lemma ReplaceBid(s: State, retained: bool)
    requires s.book == Book(map[1 := Order(1, BUY, 200, 5), 2 := Order(1, SELL, 100, 5)],
                            map[Key(1, true, 200) := [1], Key(1, false, 100) := [2]])
    ensures Step(s, Replace(2, 1, 3, 200, 5), retained).counters.crossed ==
              s.counters.crossed + if retained then 2 else 1
  {
    hide Observe, Append;
    var b := BookSpec.Erase(s.book, 1);
    assert b.queues == map[Key(1, false, 100) := [2]];
    AppendAlone(b, 3, Order(1, BUY, 200, 5));
    CrossedPair(Append(b, 3, Order(1, BUY, 200, 5)));
  }

  lemma Replayed3(run: seq<Message>, retained: bool)
    requires |run| == 3
    ensures Replayed(run, retained) == Step(Step(Step(INITIAL, run[0], retained), run[1], retained), run[2], retained)
  {
    hide Step;
    assert run[..0] == [] && run[..3] == run && Replayed(run[..0], retained) == INITIAL;
    ReplayedOneMore(run, 0, retained);
    ReplayedOneMore(run, 1, retained);
    ReplayedOneMore(run, 2, retained);
  }

  // ----- what the invariant checks can find -----

  /** After these messages the harness compares; the others change no order. */
  predicate Compared(m: Message) { !m.SystemEvent? && !m.StockDirectory? && !m.TradingAction? && !m.OperationalHalt? }

  /** The invariant checks fall due after `messages` messages, and an order of size zero is there to be found. */
  ghost predicate Alarm(b: Book, m: Message, every: nat, messages: nat) {
    Compared(m) && every != 0 && messages % every == 0 && !Positive(b)
  }

  /** Message i raises the alarm; the harness had seen `start` messages before the run. */
  ghost predicate AlarmAt(run: seq<Message>, i: nat, every: nat, start: nat)
    requires i < |run|
  {
    Alarm(Replayed(run[..i + 1], true).book, run[i], every, start + i + 1)
  }

  ghost predicate NoAlarm(run: seq<Message>, every: nat, start: nat) {
    forall i :: 0 <= i < |run| ==> !AlarmAt(run, i, every, start)
  }

  ghost predicate FirstAlarm(run: seq<Message>, i: nat, every: nat, start: nat) {
    i < |run| && AlarmAt(run, i, every, start) && forall j :: 0 <= j < i ==> !AlarmAt(run, j, every, start)
  }

  /** Orders of positive size never raise it. */
  lemma SizedRunsAreQuiet(run: seq<Message>, every: nat, start: nat)
    requires PositiveSizes(run)
    ensures NoAlarm(run, every, start)
  {
    hide Positive, Replayed, PositiveSizes;
    forall i | 0 <= i < |run| ensures !AlarmAt(run, i, every, start) { PositiveRun(run, i + 1); }
  }

  /** One order of size zero, with the checks at every message: the harness reports it, although the books agree. */
  lemma ZeroSizeIsReported(capacity: nat, symbols: nat)
    requires capacity > 0 && symbols > 1
    ensures var run := [Add(1, 1, BUY, 100, 0)]; WithinCapacity(run, capacity, symbols) && FirstAlarm(run, 0, 1, 0)
  {
    hide Step, Positive;
    var m := Add(1, 1, BUY, 100, 0);
    var run := [m];
    assert run[..0] == [] && run[..1] == run;
    ReplayedOneMore(run, 0, true);
    EmptyOrder(INITIAL);
  }

  lemma EmptyOrder(s: State)
    requires s.book == EMPTY_BOOK
    ensures !Positive(Step(s, Add(1, 1, BUY, 100, 0), true).book)
  {
    hide Observe, Append;
    AppendAlone(EMPTY_BOOK, 1, Order(1, BUY, 100, 0));
    var b := Step(s, Add(1, 1, BUY, 100, 0), true).book;
    assert 1 in b.orders && b.orders[1].shares == 0;
  }

  class Differential {
    const ref: ReferenceBook
    const fast: FastBook
    const fullEvery: nat
    const invariantEvery: nat
    var messages: nat
    var divergence: Option<Divergence>

    ghost predicate Valid()
      reads ref, fast, fast.Repr
    {
      ref.Valid() && fast.Valid() && fast.Sized() && {this as object, ref} !! fast.Repr
    }

    ghost predicate SameLevel(k: Key)
      reads ref, fast, fast.Repr
    {
      SnapshotOf(ref.Contents(), k) == SnapshotOf(fast.book, k)
    }

    constructor (W: nat, maxOrders: nat, maxSymbols: nat, indexHint: nat, policy: HashPolicy, venue: u8,
                 fullEvery: nat, invariantEvery: nat)
      requires GoodWidth(W) && StaysInside(policy) && maxSymbols <= 0x1_0000
      requires maxOrders <= NO_ORDER && indexHint <= Bits.Pow2(62) && 2 * maxOrders <= CapacityFor(indexHint)
      ensures Valid() && ref.Abs() == fast.Abs() == INITIAL && divergence == None && messages == 0
      ensures this.fullEvery == fullEvery && this.invariantEvery == invariantEvery
      ensures fast.pool.Length == maxOrders && |fast.table.symbols| == maxSymbols
      ensures fresh(ref) && fresh(fast.Repr)
    {
      hide ReferenceBook.Valid, FastBook.Valid, StaysInside, Bits.Pow2, CapacityFor;
      ref := new ReferenceBook(venue);
      fast := new FastBook(W, maxOrders, maxSymbols, indexHint, policy);
      this.fullEvery, this.invariantEvery, messages, divergence := fullEvery, invariantEvery, 0, None;
    }

    method Record(locate: Locate, side: u8, price: Price, what: Field)
      modifies `divergence
      ensures divergence == Some(Divergence(messages, locate, side, price, what))
    {
      divergence := Some(Divergence(messages, locate, side, price, what));
    }

    /** Compares one level: presence, aggregates and the whole queue. */
    method CompareLevelNow(locate: Locate, side: u8, price: Price) returns (ok: bool)
      requires Valid()
      modifies `divergence
      ensures ok <==> divergence.None?
      ensures ok <==> (old(divergence).None? && SameLevel(Key(locate, side == BUY, price)))
      ensures old(divergence).Some? ==> divergence == old(divergence)
    {
      hide ReferenceBook.Valid, FastBook.Valid, SumShares, ReferenceBook.Contents;
      if divergence.Some? { return false; }
      var r := ref.Level(Key(locate, side == BUY, price));
      var f := fast.Level(Key(locate, side == BUY, price));
      ok := true;
      if r.present != f.present {
        Record(locate, side, price, LevelPresent);
        return false;
      }
      if !r.present { return; }
      if r.shares != f.shares {
        Record(locate, side, price, LevelShares);
        ok := false;
      } else if r.orders != f.orders {
        Record(locate, side, price, LevelOrders);
        ok := false;
      } else if r.fifo != f.fifo {
        Record(locate, side, price, LevelFifo);
        ok := false;
      }
    }

    /** Compares the best prices of one symbol: whether each side has one, then the prices. */
    method CompareBboNow(locate: Locate) returns (ok: bool)
      requires Valid()
      modifies `divergence
      ensures ok <==> divergence.None?
      ensures ok <==> (old(divergence).None? && SameInside(locate))
      ensures old(divergence).Some? ==> divergence == old(divergence)
    {
      hide ReferenceBook.Valid, FastBook.Valid, ReferenceBook.Contents, BookSpec.Best;
      if divergence.Some? { return false; }
      var bid := ref.BestOf(locate, true);
      var ask := ref.BestOf(locate, false);
      var haveBid, fastBid := fast.BestOf(locate, true);
      var haveAsk, fastAsk := fast.BestOf(locate, false);
      if bid.Some? != haveBid {
        Record(locate, BUY, 0, HasBid);
      } else if ask.Some? != haveAsk {
        Record(locate, SELL, 0, HasAsk);
      } else if bid.Some? && bid.value != fastBid {
        Record(locate, BUY, bid.value, BestBid);
      } else if ask.Some? && ask.value != fastAsk {
        Record(locate, SELL, ask.value, BestAsk);
      }
      ok := divergence.None?;
    }

    ghost predicate SameInside(l: Locate)
      reads ref, fast, fast.Repr
    {
      && Best(ref.Contents(), l, true) == Best(fast.book, l, true)
      && Best(ref.Contents(), l, false) == Best(fast.book, l, false)
    }

    /** Every level the reference book holds on one side of a symbol. */
    method CompareSide(locate: Locate, buy: bool) returns (ok: bool)
      requires Valid() && divergence.None? && locate in ref.symbols
      modifies `divergence
      ensures ok <==> divergence.None?
      ensures ok <==> forall p: Price :: Key(locate, buy, p) in ref.queues ==> SameLevel(Key(locate, buy, p))
    {
      hide ReferenceBook.Valid, FastBook.Valid, SameLevel;
      var side := ref.symbols[locate].Side(buy);
      ref.SideKeys(locate, buy);
      var left := side.Keys;
      while left != {}
        invariant left <= side.Keys && divergence.None?
        invariant forall p: Price :: p in side && p !in left ==> SameLevel(Key(locate, buy, p))
        decreases left
      {
        var p := EndOf(left, false);
        ok := CompareLevelNow(locate, if buy then BUY else SELL, p);
        if !ok { return; }
        left := left - {p};
      }
      ok := true;
    }

    /** Everything the full comparison looks at, up to a locate code. */
    ghost predicate ComparedBelow(n: nat)
      reads ref, fast, fast.Repr
    {
      && (forall k :: k in ref.queues && k.locate < n ==> SameLevel(k))
      && (forall l :: l in ref.symbols && l < n ==> SameInside(l))
    }

    /** The whole of one symbol the reference book knows. */
    method CompareSymbol(locate: Locate) returns (ok: bool)
      requires Valid() && divergence.None? && ComparedBelow(locate)
      modifies `divergence
      ensures ok <==> divergence.None?
      ensures ok <==> ComparedBelow(locate + 1)
    {
      hide ReferenceBook.Valid, FastBook.Valid, SameLevel, SameInside;
      forall k: Key | k.locate == locate ensures k == Key(locate, true, k.price) || k == Key(locate, false, k.price) {}
      if locate !in ref.symbols {
        ref.SideKeys(locate, true);
        ref.SideKeys(locate, false);
        return true;
      }
      ok := CompareSide(locate, true);
      if !ok { return; }
      ok := CompareSide(locate, false);
      if !ok { return; }
      ok := CompareBboNow(locate);
    }

    /** Compares every level of every symbol the reference book holds, then the live order counts. */
    method CompareEverything() returns (ok: bool)
      requires Valid()
      modifies `divergence
      ensures ok <==> divergence.None?
      ensures ok <==> (old(divergence).None? && Compares(ref.Contents(), fast.book, ref.symbols.Keys))
      ensures old(divergence).Some? ==> divergence == old(divergence)
    {
      hide ReferenceBook.Valid, FastBook.Valid, SameLevel, SameInside, ComparedBelow;
      if divergence.Some? { return false; }
      var locate: nat := 0;
      NothingBelow();
      while locate < LAST_LOCATE
        invariant locate <= LAST_LOCATE && divergence.None? && ComparedBelow(locate)
      {
        ok := CompareSymbol(locate);
        if !ok {
          NotCompared(locate + 1);
          return;
        }
        locate := locate + 1;
      }
      WholeComparison();
      var live := fast.LiveOrders();
      ok := |ref.orders| == live;
      if !ok { Record(0, 0, 0, LiveOrderCount); }
    }

    lemma NothingBelow()
      ensures ComparedBelow(0)
    {
    }

    lemma NotCompared(n: nat)
      requires n <= LAST_LOCATE && !ComparedBelow(n)
      ensures !Compares(ref.Contents(), fast.book, ref.symbols.Keys)
    {
    }

    lemma WholeComparison()
      requires ComparedBelow(LAST_LOCATE)
      ensures Compares(ref.Contents(), fast.book, ref.symbols.Keys) <==> |ref.orders| == |fast.book.orders|
    {
    }

    /** Structural invariants are internal consistency: both books could agree and both be wrong. */
    method CheckInvariantsNow()
      requires Valid()
      modifies `divergence
      ensures divergence.None? <==> old(divergence).None? && Positive(ref.Contents()) && Positive(fast.book)
      ensures old(divergence).Some? ==> divergence == old(divergence)
      ensures old(divergence).None? && divergence.Some? ==>
                divergence.value.what == InvariantViolations && divergence.value.message == messages
    {
      hide ReferenceBook.Valid, FastBook.Valid, Positive;
      if divergence.Some? { return; }
      var refBad := ref.CheckInvariants();
      var fastBad := fast.CheckInvariants();
      if refBad != 0 || fastBad != 0 { Record(0, 0, 0, InvariantViolations); }
    }

    /** The invariant checks and the full comparison, each at its own interval. */
    method Periodic()
      requires Valid()
      modifies `divergence
      ensures divergence.None? <==>
                (old(divergence).None?
                && (invariantEvery != 0 && messages % invariantEvery == 0 ==>
                    Positive(ref.Contents()) && Positive(fast.book))
                && (fullEvery != 0 && messages % fullEvery == 0
                  ==> Compares(ref.Contents(), fast.book, ref.symbols.Keys)))
      ensures old(divergence).Some? ==> divergence == old(divergence)
      ensures old(divergence).None? && divergence.Some? && Compares(ref.Contents(), fast.book, ref.symbols.Keys) ==>
                divergence.value.what == InvariantViolations && divergence.value.message == messages
    {
      hide ReferenceBook.Valid, FastBook.Valid, Positive, Compares;
      if invariantEvery != 0 && messages % invariantEvery == 0 { CheckInvariantsNow(); }
      if fullEvery == 0 { return; }
      if messages % fullEvery != 0 { return; }
      var ok := CompareEverything();
    }

    // ----- one message -----

    predicate Refused(b: Book, m: Message) {
      RefusesMessage(b, m, fast.pool.Length, |fast.table.symbols|)
    }

    /** Both books hold the same orders in the same queues. */
    ghost predicate Agree()
      reads ref, fast, fast.Repr
    {
      ref.Contents() == fast.book && ref.afterHours == fast.afterHours
    }

    lemma AllSame(k: Key, l: Locate)
      requires Agree()
      ensures SameLevel(k) && SameInside(l)
      ensures Compares(ref.Contents(), fast.book, ref.symbols.Keys)
      ensures Positive(ref.Contents()) <==> Positive(fast.book)
    {
    }

    /** An add the fast book refuses leaves a level on which the books differ. */
    lemma RefusalShows(s: State, t: State, m: Message)
      requires Valid() && Refused(s.book, m) && fast.book == s.book
      requires t == Step(s, m, false)
      ensures SnapshotOf(t.book, Key(m.locate, m.side == BUY, m.price)) !=
                SnapshotOf(fast.book, Key(m.locate, m.side == BUY, m.price))
    {
      hide ReferenceBook.Valid, FastBook.Valid, Observe, WellFormed;
      var k := Key(m.locate, m.side == BUY, m.price);
      fast.BookWellFormed();
      QueueListsOwn(s.book, k);
      if m.ref in s.book.orders { fast.LocateInTable(m.ref); }
      var q := Queue(EraseDuplicate(s, m.ref).book, k) + [m.ref];
      assert q[|q| - 1] == m.ref && t.book.queues[k] == q;
    }

    /** A message to both books. */
    method Apply(m: Message, ts: u64)
      requires Valid()
      modifies `messages, ref, fast.Repr
      ensures Valid() && messages == old(messages) + 1
      ensures ref.Abs() == Step(old(ref.Abs()), m, false)
      ensures !Refused(old(fast.book), m) ==> fast.Abs() == Step(old(fast.Abs()), m, true)
      ensures Refused(old(fast.book), m) ==> fast.book == old(fast.book)
    {
      hide ReferenceBook.Valid, FastBook.Valid, Step;
      ref.On(m, ts);
      fast.On(m);
      messages := messages + 1;
    }

    lemma StillAgree(s: State, t: State, m: Message)
      requires s.book == t.book && s.afterHours == t.afterHours
      requires ref.Abs() == Step(s, m, false) && fast.Abs() == Step(t, m, true)
      ensures Agree()
    {
      hide Step;
      SameBookStep(t, s, m);
    }

    lemma RefusedLevel(s: State, t: State, m: Message)
      requires Valid() && s.book == t.book && Refused(t.book, m)
      requires ref.Abs() == Step(s, m, false) && fast.book == t.book
      ensures m.Add? && !SameLevel(Key(m.locate, m.side == BUY, m.price))
    {
      hide Step;
      RefusalShows(s, ref.Abs(), m);
    }

    /** From agreement on both books: nothing is reported unless the checks fall due and an order is of size zero, and
        then that is. */
    ghost predicate OnlyAlarm(alarm: bool)
      reads `divergence, `messages
    {
      && (divergence.Some? <==> alarm)
      && (divergence.Some? ==> divergence.value.what == InvariantViolations && divergence.value.message == messages)
    }

    ghost predicate AlarmNow(m: Message)
      reads this, ref, fast, fast.Repr
    {
      Alarm(fast.book, m, invariantEvery, messages)
    }

    lemma Agreed()
      requires Agree()
      ensures ref.Abs().book == fast.Abs().book && ref.Abs().afterHours == fast.Abs().afterHours
    {
    }

    /** The levels a message touched, the inside of its symbol, and the periodic checks. */
    method CompareAfter(locate: Locate, touched: seq<(u8, Price)>, inside: bool, ghost m: Message)
      requires Valid() && divergence.None? && Compared(m)
      modifies `divergence
      ensures divergence.None? ==> forall t :: t in touched ==> SameLevel(Key(locate, t.0 == BUY, t.1))
      ensures divergence.None? && inside ==> SameInside(locate)
      ensures Agree() ==> OnlyAlarm(AlarmNow(m))
    {
      hide ReferenceBook.Valid, FastBook.Valid, Agree, SameLevel, SameInside, Positive, Compares;
      if Agree() {
        forall k, l ensures SameLevel(k) && SameInside(l) { AllSame(k, l); }
        AllSame(Key(0, true, 0), 0);
      }
      var i := 0;
      while i < |touched|
        invariant i <= |touched|
        invariant Agree() ==> divergence.None?
        invariant divergence.None? ==> forall j ::
                    0 <= j < i ==> SameLevel(Key(locate, touched[j].0 == BUY, touched[j].1))
      {
        var same := CompareLevelNow(locate, touched[i].0, touched[i].1);
        i := i + 1;
      }
      if inside { var same := CompareBboNow(locate); }
      Periodic();
    }

    /** A message to both books, then the comparisons. From agreement, a message the fast book refuses is always
        reported: a sizing failure is never a silently smaller book. Otherwise the books still agree, and only an order
        of size zero can be reported. */
    method Drive(m: Message, ts: u64, locate: Locate, touched: seq<(u8, Price)>, inside: bool)
      requires Valid() && divergence.None?
      requires Compared(m) && (m.Add? ==> m.locate == locate && (m.side, m.price) in touched)
      modifies this, ref, fast.Repr
      ensures Valid() && messages == old(messages) + 1
      ensures ref.Abs() == Step(old(ref.Abs()), m, false)
      ensures !Refused(old(fast.book), m) ==> fast.Abs() == Step(old(fast.Abs()), m, true)
      ensures old(Agree()) && Refused(old(fast.book), m) ==> divergence.Some?
      ensures old(Agree()) && !Refused(old(fast.book), m) ==> Agree() && OnlyAlarm(AlarmNow(m))
    {
      hide ReferenceBook.Valid, FastBook.Valid, Step, Agree, SameLevel, SameInside, Positive, RefusesMessage;
      ghost var s, t, agreed := ref.Abs(), fast.Abs(), Agree();
      if agreed { Agreed(); }
      Apply(m, ts);
      if agreed {
        if Refused(t.book, m) { RefusedLevel(s, t, m); } else { StillAgree(s, t, m); }
      }
      CompareAfter(locate, touched, inside, m);
      assert m.Add? && divergence.None? ==> SameLevel(Key(locate, (m.side, m.price).0 == BUY, (m.side, m.price).1));
    }

    /** An event that changes no book goes to the reference book alone, which keeps the trading state. */
    method ToReference(m: Message, ts: u64)
      requires Valid() && (m.StockDirectory? || m.TradingAction? || m.OperationalHalt?)
      modifies `messages, ref
      ensures Valid() && ref.Abs() == old(ref.Abs()) && messages == old(messages) + 1
    {
      hide ReferenceBook.Valid, FastBook.Valid;
      ref.On(m, ts);
      messages := messages + 1;
    }

    /** The side and price of a live order, by the reference book. */
    method LocateOf(r: Ref) returns (known: seq<(u8, Price)>)
      ensures known == if r in ref.orders then [(ref.orders[r].side, ref.orders[r].price)] else []
    {
      known := if r in ref.orders then [(ref.orders[r].side, ref.orders[r].price)] else [];
    }

    /** The level of a modify is resolved before the message is applied: afterwards the order may be gone. */
    method Modify(m: Message, ts: u64, locate: Locate, r: Ref)
      requires Valid() && (m.Reduce? || m.Delete?)
      modifies this, ref, fast.Repr
      ensures Valid()
      ensures old(divergence).Some? ==> divergence == old(divergence)
      ensures old(divergence).None? ==>
                ref.Abs() == Step(old(ref.Abs()), m, false) && fast.Abs() == Step(old(fast.Abs()), m, true)
      ensures old(divergence).None? ==> messages == old(messages) + 1
      ensures old(divergence).None? && old(Agree()) ==> Agree() && OnlyAlarm(AlarmNow(m))
    {
      hide ReferenceBook.Valid, FastBook.Valid, Step, Agree, OnlyAlarm, Alarm;
      if divergence.Some? { return; }
      var known := LocateOf(r);
      Drive(m, ts, locate, known, true);
    }

    /** One message. Events that change no book go to the reference book alone; after a divergence nothing else
        moves. */
    method On(m: Message, ts: u64)
      requires Valid()
      modifies this, ref, fast.Repr
      ensures Valid()
      ensures old(divergence).Some? ==> divergence == old(divergence)
      ensures old(divergence).None? && !Refused(old(fast.book), m) ==>
                ref.Abs() == Step(old(ref.Abs()), m, false) && fast.Abs() == Step(old(fast.Abs()), m, true)
      ensures old(divergence).None? && old(Agree()) && Refused(old(fast.book), m) ==> divergence.Some?
      ensures old(divergence).None? ==> messages == old(messages) + 1
      ensures old(divergence).None? && old(Agree()) && !Refused(old(fast.book), m) ==> Agree() && OnlyAlarm(AlarmNow(m))
    {
      hide ReferenceBook.Valid, FastBook.Valid, AddStep, ReduceStep, ReplaceStep, Positive;
      match m
      case SystemEvent(_) => Apply(m, ts);
      case StockDirectory(_) => ToReference(m, ts);
      case TradingAction(_, _) => ToReference(m, ts);
      case OperationalHalt(_, _, _) => ToReference(m, ts);
      case Add(locate, _, side, price, _) =>
        if divergence.None? { Drive(m, ts, locate, [(side, price)], true); }
      case Reduce(_, locate, r, _) => Modify(m, ts, locate, r);
      case Delete(locate, r) => Modify(m, ts, locate, r);
      case Replace(locate, oldRef, _, price, _) =>
        if divergence.None? {
          var known := LocateOf(oldRef);
          var side := if known == [] then 0 else known[0].0;
          Drive(m, ts, locate, known + [(side, price)], true);
        }
      case Trade(locate, _) => if divergence.None? { Drive(m, ts, locate, [], true); }
      case CrossTrade(locate, _) => if divergence.None? { Drive(m, ts, locate, [], false); }
      case BrokenTrade(locate) => if divergence.None? { Drive(m, ts, locate, [], false); }
    }

    /** No divergence so far: the books agree, each as its reading of the first n messages gives. */
    ghost predicate Following(run: seq<Message>, n: nat, start: nat)
      requires n <= |run|
      reads this, ref, fast, fast.Repr
    {
      && divergence.None? && Agree() && ref.Abs() == Replayed(run[..n], false) && fast.Abs() == Replayed(run[..n], true)
      && WithinCapacity(run[..n], fast.pool.Length, |fast.table.symbols|)
      && messages == start + n && forall i :: 0 <= i < n ==> !AlarmAt(run, i, invariantEvery, start)
    }

    /** A divergence has its reason in the run: a refused add, or else the first alarm. */
    ghost predicate Explained(run: seq<Message>, start: nat)
      reads `divergence
    {
      && divergence.Some?
      && (WithinCapacity(run, fast.pool.Length, |fast.table.symbols|) ==>
            && divergence.value.what == InvariantViolations && divergence.value.message > start
            && FirstAlarm(run, divergence.value.message - start - 1, invariantEvery, start))
    }

    method Advance(run: seq<Message>, n: nat, ts: u64, ghost start: nat)
      requires Valid() && n < |run| && (Following(run, n, start) || Explained(run, start))
      modifies this, ref, fast.Repr
      ensures Valid() && (Following(run, n + 1, start) || Explained(run, start))
    {
      hide ReferenceBook.Valid, FastBook.Valid, Step, Positive, RefusesMessage, Replayed, Agree;
      var m := run[n];
      if divergence.Some? {
        On(m, ts);
        return;
      }
      ReplayedOneMore(run, n, true);
      ReplayedOneMore(run, n, false);
      if Refused(fast.book, m) { NotWithin(run, n); } else { StillWithin(run, n); }
      On(m, ts);
    }

    lemma NotWithin(run: seq<Message>, n: nat)
      requires n < |run| && Refused(Replayed(run[..n], true).book, run[n])
      ensures !WithinCapacity(run, fast.pool.Length, |fast.table.symbols|)
    {
    }

    lemma StillWithin(run: seq<Message>, n: nat)
      requires n < |run| && !Refused(Replayed(run[..n], true).book, run[n])
      requires WithinCapacity(run[..n], fast.pool.Length, |fast.table.symbols|)
      ensures WithinCapacity(run[..n + 1], fast.pool.Length, |fast.table.symbols|)
    {
      hide Replayed, RefusesMessage;
      var longer := run[..n + 1];
      forall i | 0 <= i < |longer| ensures !Refused(Replayed(longer[..i], true).book, longer[i]) {
        assert longer[..i] == run[..i];
        if i < n { assert longer[..i] == run[..n][..i] && run[..n][i] == longer[i]; }
      }
    }

    /** A whole session, and the full comparison at its end. The harness passes exactly when the fast book had room for
        every order and no check fell due while an order of size zero was live; the two books then agree in every level,
        queue and best price, and each is in the state its reading of the run gives. */
    method Replay(run: seq<Message>, times: seq<u64>) returns (ok: bool)
      requires Valid() && |times| == |run| && divergence == None
      requires ref.Abs() == INITIAL && fast.Abs() == INITIAL
      modifies this, ref, fast.Repr
      ensures Valid() && (ok <==> divergence.None?)
      ensures ok <==>
                WithinCapacity(run, fast.pool.Length, |fast.table.symbols|)
                && NoAlarm(run, invariantEvery, old(messages))
      ensures ok ==>
                ref.Abs() == Replayed(run, false) && fast.Abs() == Replayed(run, true) && ref.Contents() == fast.book
      ensures !ok && WithinCapacity(run, fast.pool.Length, |fast.table.symbols|) ==>
                && divergence.value.what == InvariantViolations && divergence.value.message > old(messages)
                && FirstAlarm(run, divergence.value.message - old(messages) - 1, invariantEvery, old(messages))
    {
      hide ReferenceBook.Valid, FastBook.Valid, Compares, WithinCapacity, AlarmAt, Agree;
      ghost var start := messages;
      var i := 0;
      StartsFollowing(run);
      while i < |run|
        invariant i <= |run| && Valid() && (Following(run, i, start) || Explained(run, start))
      {
        Advance(run, i, times[i], start);
        i := i + 1;
      }
      assert run[..i] == run;
      if Agree() {
        Agreed();
        AllSame(Key(0, true, 0), 0);
      }
      ok := CompareEverything();
    }

    lemma StartsFollowing(run: seq<Message>)
      requires ref.Abs() == fast.Abs() == INITIAL && divergence == None
      ensures Following(run, 0, messages)
    {
      assert run[..0] == [];
    }
  }

  /** A harness with its invariant checks at every message replays one add of no shares: it reports the first message,
      although there was room for the order and the books agree. */
  method ReportsZeroSize(W: nat, maxOrders: nat, maxSymbols: nat, indexHint: nat, policy: HashPolicy, venue: u8,
                         fullEvery: nat, ts: u64) returns (d: Differential, ok: bool)
    requires GoodWidth(W) && StaysInside(policy) && 1 < maxSymbols <= 0x1_0000
    requires 0 < maxOrders <= NO_ORDER && indexHint <= Bits.Pow2(62) && 2 * maxOrders <= CapacityFor(indexHint)
    ensures fresh(d) && !ok && d.divergence.Some? && d.divergence.value.what == InvariantViolations
    ensures d.divergence.value.message == 1
  {
    hide Differential.Valid, StaysInside, Bits.Pow2, CapacityFor, WithinCapacity, AlarmAt;
    d := new Differential(W, maxOrders, maxSymbols, indexHint, policy, venue, fullEvery, 1);
    ZeroSizeIsReported(maxOrders, maxSymbols);
    ok := d.Replay([Add(1, 1, BUY, 100, 0)], [ts]);
  }
}
