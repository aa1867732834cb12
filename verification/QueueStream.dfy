/** The simulator as a fold over what happens to it, and what holds of every order of every such stream. */
module QueueStreams {
  import opened BookTypes
  import opened BookSpec
  import opened QueueModels
  import opened QueueBooks
  import opened QueueTallies

  const SWEEP: u64 := 100_000_000

  datatype Settings = Settings(maxLife: u64, printsFill: bool, timer: bool)

  /** What happens: a message, with the draws of the Bernoulli model and the placements the timer makes at it; an order
      placed from outside; or a symbol's orders withdrawn. */
  datatype Action =
    | Heard(m: Message, ts: u64, coins: nat -> bool, placing: seq<(Locate, u8)>)
    | Directed(locate: Locate, side: u8, ts: u64)
    | Withdrawn(locate: Locate)

  /** The book, the orders held in the order they were placed, the orders since swept out, and the two times kept. */
  datatype Sim = Sim(s: State, live: seq<SyntheticOrder>, swept: seq<SyntheticOrder>, lastTs: u64, lastSweep: u64)

  const FRESH := Sim(INITIAL, [], [], 0, 0)

  // ----- one action -----

  ghost predicate TwoSided(b: Book, locate: Locate) { Best(b, locate, true).Some? && Best(b, locate, false).Some? }

  /** A new order, behind the whole queue of its level in every view. */
  ghost function Entrant(b: Book, locate: Locate, side: u8, price: Price, ts: u64): SyntheticOrder {
    var k := Key(locate, side == BUY, price);
    var s := AtEntry(Depth(b, k));
    SyntheticOrder(locate, side, price, ts, Depth(b, k), Views(s, s, s, s, s), Members(Queue(b, k)), true)
  }

  /** The live orders after one placement: a two-sided symbol takes one more, at the inside of its side. */
  ghost function Joined(b: Book, live: seq<SyntheticOrder>, locate: Locate, side: u8, ts: u64): seq<SyntheticOrder> {
    if TwoSided(b, locate) then live + [Entrant(b, locate, side, Best(b, locate, side == BUY).value, ts)] else live
  }

  ghost function JoinedAll(b: Book, live: seq<SyntheticOrder>, placing: seq<(Locate, u8)>,
                           ts: u64): seq<SyntheticOrder> {
    if placing == [] then live
    else
      var n := |placing| - 1;
      Joined(b, JoinedAll(b, live, placing[..n], ts), placing[n].0, placing[n].1, ts)
  }

  /** Every order has heard the message. */
  function Hears(b: Book, b': Book, m: Message, ts: u64, live: seq<SyntheticOrder>, coins: nat -> bool,
                 printsFill: bool): (heard: seq<SyntheticOrder>)
    ensures |heard| == |live|
    ensures forall j :: 0 <= j < |live| ==> heard[j] == HeardBy(b, b', m, ts, live[j], coins(j), printsFill)
  {
    seq(|live|, j requires 0 <= j < |live| => HeardBy(b, b', m, ts, live[j], coins(j), printsFill))
  }

  lemma HeardAll(b: Book, b': Book, m: Message, ts: u64, live: seq<SyntheticOrder>, coins: nat -> bool,
                 printsFill: bool,
                 heard: seq<SyntheticOrder>)
    requires |heard| == |live|
    requires forall j: nat :: j < |live| ==> heard[j] == HeardBy(b, b', m, ts, live[j], coins(j), printsFill)
    ensures heard == Hears(b, b', m, ts, live, coins, printsFill)
  {
  }

  /** The live orders that fail a test, given up. */
  function Marked(live: seq<SyntheticOrder>, stays: SyntheticOrder -> bool): seq<SyntheticOrder> {
    seq(|live|, j requires 0 <= j < |live| => if live[j].anyLive && !stays(live[j])
          then ExpiredAll(live[j]) else live[j])
  }

  function Compacted(sim: Sim, stays: SyntheticOrder -> bool): Sim {
    var marked := Marked(sim.live, stays);
    sim.(live := Kept(marked), swept := sim.swept + Dropped(marked))
  }

  predicate MovesClock(m: Message) { !m.SystemEvent? && !m.StockDirectory? && !m.TradingAction? && !m.OperationalHalt? }

  function Swept(st: Settings, sim: Sim, ts: u64): Sim {
    if Since(ts, sim.lastSweep) >= SWEEP then Compacted(sim.(lastSweep := ts), Young(ts, st.maxLife)) else sim
  }

  /** The clock: those too old at a sweep are gone, and the timer's placements have joined. A time before the last one
      is ignored. */
  ghost function Ticked(st: Settings, sim: Sim, ts: u64, placing: seq<(Locate, u8)>): Sim {
    if ts < sim.lastTs then sim
    else
      var swept := Swept(st, sim.(lastTs := ts), ts);
      if st.timer then swept.(live := JoinedAll(sim.s.book, swept.live, placing, ts)) else swept
  }

  ghost function Next(st: Settings, sim: Sim, a: Action): Sim {
    match a
    case Heard(m, ts, coins, placing) =>
      var s' := BookAfter(sim.s, m);
      var heard := sim.(s := s', live := Hears(sim.s.book, s'.book, m, ts, sim.live, coins, st.printsFill));
      if MovesClock(m) then Ticked(st, heard, ts, placing) else heard
    case Directed(locate, side, ts) => sim.(live := Joined(sim.s.book, sim.live, locate, side, ts))
    case Withdrawn(locate) => Compacted(sim, Elsewhere(locate))
  }

  /** A whole stream, from a fresh simulator. */
  ghost function Streamed(st: Settings, run: seq<Action>): Sim {
    if run == [] then FRESH else Next(st, Streamed(st, run[..|run| - 1]), run[|run| - 1])
  }

  lemma StreamedOneMore(st: Settings, run: seq<Action>, n: nat)
    requires n < |run|
    ensures Streamed(st, run[..n + 1]) == Next(st, Streamed(st, run[..n]), run[n])
  {
    hide Next;
    assert run[..n + 1][..n] == run[..n];
  }

  /** Every order ever placed: those held and those swept out. */
  function Everything(sim: Sim): seq<SyntheticOrder> { sim.swept + sim.live }

  // ----- what a stream may be like -----

  ghost predicate OrderlyAction(b: Book, a: Action) {
    match a
    case Heard(m, _, _, placing) => Orderly(b, m) && forall p :: p in placing ==> OneOfTwo(p.1)
    case Directed(_, side, _) => OneOfTwo(side)
    case Withdrawn(_) => true
  }

  /** No reference is ever given to a second live order, and sides are 'B' or 'S'. */
  ghost predicate OrderlyRun(st: Settings, run: seq<Action>) {
    forall i :: 0 <= i < |run| ==> OrderlyAction(Streamed(st, run[..i]).s.book, run[i])
  }

  predicate NoOverTakeAction(b: Book, a: Action) { a.Heard? ==> NoOverTake(b, a.m) }

  /** No message takes more from an order than the order has. */
  ghost predicate NoOverTakeRun(st: Settings, run: seq<Action>) {
    forall i :: 0 <= i < |run| ==> NoOverTakeAction(Streamed(st, run[..i]).s.book, run[i])
  }

  predicate PlainAction(b: Book, a: Action) { a.Heard? ==> Plain(b, a.m) }

  /** No order is ever of size zero, and no execution takes more than there is; cancels may. */
  ghost predicate PlainRun(st: Settings, run: seq<Action>) {
    forall i :: 0 <= i < |run| ==> PlainAction(Streamed(st, run[..i]).s.book, run[i])
  }

  function ClockAfter(run: seq<Action>): Clock {
    if run == [] then START
    else
      var c, a := ClockAfter(run[..|run| - 1]), run[|run| - 1];
      if a.Heard? then Later(c, a.ts) else c
  }

  /** The times of the messages never go back. */
  ghost predicate ForwardRun(run: seq<Action>) {
    forall i, j :: 0 <= i < j < |run| && run[i].Heard? && run[j].Heard? ==> run[i].ts <= run[j].ts
  }

  lemma {:induction false} ForwardClock(run: seq<Action>)
    requires ForwardRun(run)
    ensures ClockAfter(run).forward
    ensures ClockAfter(run).latest == 0
            || exists i :: 0 <= i < |run| && run[i].Heard? && run[i].ts == ClockAfter(run).latest
  {
    if run != [] {
      var n := |run| - 1;
      ForwardClock(run[..n]);
      assert forall i :: 0 <= i < n ==> run[..n][i] == run[i];
    }
  }

  lemma {:induction false} StreamWellFormed(st: Settings, run: seq<Action>)
    ensures WellFormed(Streamed(st, run).s.book)
  {
    hide WellFormed, Step, Joined, JoinedAll, Hears, Compacted, Swept;
    if run == [] {
      NothingWellFormed();
    } else {
      var front, a := Streamed(st, run[..|run| - 1]), run[|run| - 1];
      StreamWellFormed(st, run[..|run| - 1]);
      if a.Heard? { StepWellFormed(front.s, a.m, false); }
      SameBook(st, front, a);
    }
  }

  lemma NothingWellFormed()
    ensures WellFormed(EMPTY_BOOK)
  {
  }

  /** Only a message changes the book. */
  lemma SameBook(st: Settings, sim: Sim, a: Action)
    ensures Next(st, sim, a).s == if a.Heard? then BookAfter(sim.s, a.m) else sim.s
  {
    hide BookAfter, Joined, JoinedAll, Hears, Marked;
  }

  // ----- every order of a stream -----

  /** What a stream has been like so far, as far as it matters to exact. */
  datatype Kind = Kind(noOverTake: bool, plain: bool)

  ghost predicate Meets(kind: Kind, b: Book, m: Message) {
    (kind.noOverTake ==> NoOverTake(b, m)) && (kind.plain ==> Plain(b, m))
  }

  /** One order: its models are in order, and exact follows the book. */
  ghost predicate Placed(kind: Kind, o: SyntheticOrder, b: Book, c: Clock) {
    && Ranked(o, b, c) && Fronted(o, b)
    && (kind.noOverTake ==> Counted(o, b)) && (kind.plain ==> Backed(o, b, c))
  }

  ghost predicate Follows(kind: Kind, orders: seq<SyntheticOrder>, b: Book, c: Clock) {
    TwoSides(b) && (kind.plain ==> Positive(b)) && forall o :: o in orders ==> Placed(kind, o, b, c)
  }

  ghost predicate AllOver(orders: seq<SyntheticOrder>) { forall o :: o in orders ==> !o.anyLive }

  lemma PlacedAfterHearing(s: State, m: Message, ts: u64, o: SyntheticOrder, coin: bool, printsFill: bool, c: Clock,
                           kind: Kind)
    requires Ready(s, m) && Meets(kind, s.book, m) && Placed(kind, o, s.book, c) && (kind.plain ==> Positive(s.book))
    ensures var b' := BookAfter(s, m).book;
            Placed(kind, HeardBy(s.book, b', m, ts, o, coin, printsFill), b', Later(c, ts))
  {
    hide Ready, Ranked, Fronted, Counted, Backed, Step, Positive, HeardBy, NoOverTake, Plain;
    RankedAfterHearing(s, m, ts, o, coin, printsFill, c);
  }

  lemma PlacedAfterExpiry(o: SyntheticOrder, b: Book, c: Clock, kind: Kind)
    requires Placed(kind, o, b, c)
    ensures Placed(kind, ExpiredAll(o), b, c)
  {
    hide Ranked, Fronted, Counted, Backed, ExpiredAll;
    RankedAfterExpiry(b, o, c);
  }

  lemma FollowsHeard(st: Settings, s: State, m: Message, ts: u64, live: seq<SyntheticOrder>, coins: nat -> bool,
                     c: Clock,
                     kind: Kind)
    requires Ready(s, m) && Follows(kind, live, s.book, c) && Meets(kind, s.book, m)
    ensures var b' := BookAfter(s, m).book;
            Follows(kind, Hears(s.book, b', m, ts, live, coins, st.printsFill), b', Later(c, ts))
  {
    hide Ready, Placed, Step, Positive, TwoSides, HeardBy, Meets;
    var b' := BookAfter(s, m).book;
    var heard := Hears(s.book, b', m, ts, live, coins, st.printsFill);
    KeptByMessage(s, m, kind);
    forall j | 0 <= j < |heard| ensures Placed(kind, heard[j], b', Later(c, ts)) {
      assert live[j] in live;
      PlacedAfterHearing(s, m, ts, live[j], coins(j), st.printsFill, c, kind);
    }
  }

  lemma KeptByMessage(s: State, m: Message, kind: Kind)
    requires Ready(s, m) && Meets(kind, s.book, m) && (kind.plain ==> Positive(s.book))
    ensures TwoSides(BookAfter(s, m).book) && (kind.plain ==> Positive(BookAfter(s, m).book))
  {
    hide Step, Positive, TwoSides, WellFormed;
    TwoSidesAfterStep(s, m);
    if kind.plain { StepPositive(s, m, false); }
  }

  /** Orders that are over go on being ranked, whatever the book does. */
  lemma FollowsOver(s: State, m: Message, ts: u64, over: seq<SyntheticOrder>, c: Clock, kind: Kind)
    requires Ready(s, m) && Follows(kind, over, s.book, c) && AllOver(over) && Meets(kind, s.book, m)
    ensures Follows(kind, over, BookAfter(s, m).book, Later(c, ts))
  {
    hide Ready, Placed, Step, Positive, TwoSides, HeardBy, Meets;
    var b' := BookAfter(s, m).book;
    KeptByMessage(s, m, kind);
    forall o | o in over ensures Placed(kind, o, b', Later(c, ts)) {
      PlacedAfterHearing(s, m, ts, o, false, false, c, kind);
      OverHearsNothing(s.book, b', m, ts, o, false, false);
    }
  }

  /** Giving some orders up and sweeping leaves orders that were there, as they were or given up. */
  lemma CompactedMembers(sim: Sim, stays: SyntheticOrder -> bool)
    requires AllOver(sim.swept)
    ensures var sim' := Compacted(sim, stays);
            && AllOver(sim'.swept)
            && forall o :: o in Everything(sim') ==>
                 o in Everything(sim) || exists p :: p in Everything(sim) && o == ExpiredAll(p)
  {
    hide ExpiredAll;
    var marked := Marked(sim.live, stays);
    KeptMembers(marked);
    DroppedMembers(marked);
    forall o | o in marked
      ensures o in Everything(sim) || exists p :: p in Everything(sim) && o == ExpiredAll(p)
    {
      var j :| 0 <= j < |marked| && marked[j] == o;
      assert sim.live[j] in Everything(sim);
    }
  }

  lemma FollowsCompacted(sim: Sim, stays: SyntheticOrder -> bool, c: Clock, kind: Kind)
    requires Follows(kind, Everything(sim), sim.s.book, c) && AllOver(sim.swept)
    ensures var sim' := Compacted(sim, stays);
            sim'.s == sim.s && Follows(kind, Everything(sim'), sim.s.book, c) && AllOver(sim'.swept)
  {
    hide Placed, Positive, TwoSides, ExpiredAll, AllOver, Everything;
    CompactedMembers(sim, stays);
    forall o | o in Everything(Compacted(sim, stays)) ensures Placed(kind, o, sim.s.book, c) {
      if o !in Everything(sim) {
        var p :| p in Everything(sim) && o == ExpiredAll(p);
        PlacedAfterExpiry(p, sim.s.book, c, kind);
      }
    }
  }

  lemma FollowsJoined(b: Book, orders: seq<SyntheticOrder>, locate: Locate, side: u8, ts: u64, c: Clock, kind: Kind)
    requires Follows(kind, orders, b, c) && OneOfTwo(side)
    ensures TwoSided(b, locate) ==>
              Follows(kind, orders + [Entrant(b, locate, side, Best(b, locate, side == BUY).value, ts)], b, c)
  {
    hide Ranked, Fronted, Counted, Backed, Positive, TwoSides, Depth;
    if TwoSided(b, locate) { RankedAtEntry(b, Entrant(b, locate, side, Best(b, locate, side == BUY).value, ts), c); }
  }

  lemma FollowsJoin(sim: Sim, locate: Locate, side: u8, ts: u64, c: Clock, kind: Kind)
    requires Follows(kind, Everything(sim), sim.s.book, c) && OneOfTwo(side)
    ensures Follows(kind, Everything(sim.(live := Joined(sim.s.book, sim.live, locate, side, ts))), sim.s.book, c)
  {
    hide Follows, Best, Entrant;
    FollowsJoined(sim.s.book, Everything(sim), locate, side, ts, c, kind);
    if TwoSided(sim.s.book, locate) {
      var o := Entrant(sim.s.book, locate, side, Best(sim.s.book, locate, side == BUY).value, ts);
      assert (sim.swept + sim.live) + [o] == sim.swept + (sim.live + [o]);
    }
  }

  lemma {:induction false} FollowsJoinAll(sim: Sim, placing: seq<(Locate, u8)>, ts: u64, c: Clock, kind: Kind)
    requires Follows(kind, Everything(sim), sim.s.book, c) && forall p :: p in placing ==> OneOfTwo(p.1)
    ensures Follows(kind, Everything(sim.(live := JoinedAll(sim.s.book, sim.live, placing, ts))), sim.s.book, c)
    decreases |placing|
  {
    hide Follows, Joined;
    if placing != [] {
      var n := |placing| - 1;
      FollowsJoinAll(sim, placing[..n], ts, c, kind);
      assert placing[n] in placing;
      FollowsJoin(sim.(live := JoinedAll(sim.s.book, sim.live, placing[..n], ts)), placing[n].0, placing[n].1, ts, c,
          kind);
    }
  }

  lemma FollowsTicked(st: Settings, sim: Sim, ts: u64, placing: seq<(Locate, u8)>, c: Clock, kind: Kind)
    requires Follows(kind, Everything(sim), sim.s.book, c) && AllOver(sim.swept)
    requires forall p :: p in placing ==> OneOfTwo(p.1)
    ensures var sim' := Ticked(st, sim, ts, placing);
            sim'.s == sim.s && Follows(kind, Everything(sim'), sim.s.book, c) && AllOver(sim'.swept)
  {
    hide Follows, AllOver, JoinedAll, Compacted;
    if ts >= sim.lastTs {
      FollowsCompacted(sim.(lastTs := ts, lastSweep := ts), Young(ts, st.maxLife), c, kind);
      FollowsJoinAll(Swept(st, sim.(lastTs := ts), ts), placing, ts, c, kind);
    }
  }

  lemma FollowsBoth(kind: Kind, x: seq<SyntheticOrder>, y: seq<SyntheticOrder>, b: Book, c: Clock)
    ensures Follows(kind, x, b, c) && Follows(kind, y, b, c) <==> Follows(kind, x + y, b, c)
  {
    hide Placed, Positive, TwoSides;
    forall o ensures o in x + y <==> o in x || o in y {}
  }

  lemma FollowsMessage(st: Settings, sim: Sim, a: Action, c: Clock, kind: Kind)
    requires a.Heard? && WellFormed(sim.s.book) && OrderlyAction(sim.s.book, a) && Meets(kind, sim.s.book, a.m)
    requires Follows(kind, Everything(sim), sim.s.book, c) && AllOver(sim.swept)
    ensures var sim' := Next(st, sim, a);
            Follows(kind, Everything(sim'), sim'.s.book, Later(c, a.ts)) && AllOver(sim'.swept)
  {
    hide Placed, WellFormed, AllOver, Hears, BookAfter, Ticked, Meets, Orderly, Positive;
    var s' := BookAfter(sim.s, a.m);
    var live := Hears(sim.s.book, s'.book, a.m, a.ts, sim.live, a.coins, st.printsFill);
    FollowsBoth(kind, sim.swept, sim.live, sim.s.book, c);
    FollowsHeard(st, sim.s, a.m, a.ts, sim.live, a.coins, c, kind);
    FollowsOver(sim.s, a.m, a.ts, sim.swept, c, kind);
    FollowsBoth(kind, sim.swept, live, s'.book, Later(c, a.ts));
    FollowsTicked(st, sim.(s := s', live := live), a.ts, a.placing, Later(c, a.ts), kind);
  }

  ghost function KindOf(st: Settings, run: seq<Action>): Kind { Kind(NoOverTakeRun(st, run), PlainRun(st, run)) }

  lemma {:induction false} StreamFollows(st: Settings, run: seq<Action>)
    requires OrderlyRun(st, run)
    ensures var sim := Streamed(st, run);
            Follows(KindOf(st, run), Everything(sim), sim.s.book, ClockAfter(run)) && AllOver(sim.swept)
  {
    hide Follows, OrderlyAction, AllOver, Everything, Next, NoOverTakeRun, PlainRun, OrderlyRun, Meets;
    if run == [] {
      NothingFollows(KindOf(st, run));
    } else {
      var n := |run| - 1;
      var front, a := Streamed(st, run[..n]), run[n];
      FrontOf(st, run);
      StreamFollows(st, run[..n]);
      StreamWellFormed(st, run[..n]);
      Weaker(KindOf(st, run[..n]), KindOf(st, run), Everything(front), front.s.book, ClockAfter(run[..n]));
      FollowsAction(st, front, a, ClockAfter(run[..n]), KindOf(st, run));
    }
  }

  lemma Weaker(kind: Kind, kind': Kind, orders: seq<SyntheticOrder>, b: Book, c: Clock)
    requires Follows(kind, orders, b, c) && (kind'.noOverTake ==> kind.noOverTake) && (kind'.plain ==> kind.plain)
    ensures Follows(kind', orders, b, c)
  {
    hide Ranked, Fronted, Counted, Backed, Positive, TwoSides;
  }

  lemma NothingFollows(kind: Kind)
    ensures Follows(kind, Everything(FRESH), EMPTY_BOOK, START) && AllOver(FRESH.swept)
  {
  }

  lemma FrontOf(st: Settings, run: seq<Action>)
    requires run != []
    ensures var n := |run| - 1;
            var b := Streamed(st, run[..n]).s.book;
            && (OrderlyRun(st, run) ==> OrderlyRun(st, run[..n]) && OrderlyAction(b, run[n]))
            && (NoOverTakeRun(st, run) ==> NoOverTakeRun(st, run[..n]))
            && (PlainRun(st, run) ==> PlainRun(st, run[..n]))
            && (run[n].Heard? ==> Meets(KindOf(st, run), b, run[n].m))
  {
    hide OrderlyAction, Streamed, NoOverTake, Plain;
    var n := |run| - 1;
    var front := run[..n];
    forall i | 0 <= i < n ensures front[..i] == run[..i] && front[i] == run[i] {}
  }

  lemma FollowsAction(st: Settings, sim: Sim, a: Action, c: Clock, kind: Kind)
    requires WellFormed(sim.s.book) && OrderlyAction(sim.s.book, a) && (a.Heard? ==> Meets(kind, sim.s.book, a.m))
    requires Follows(kind, Everything(sim), sim.s.book, c) && AllOver(sim.swept)
    ensures var sim' := Next(st, sim, a);
            && Follows(kind, Everything(sim'), sim'.s.book, if a.Heard? then Later(c, a.ts) else c)
            && AllOver(sim'.swept)
  {
    hide WellFormed, Follows, AllOver, Joined, Compacted, Everything, Meets;
    if a.Heard? {
      hide Next;
      FollowsMessage(st, sim, a, c, kind);
    } else if a.Directed? {
      FollowsJoin(sim, a.locate, a.side, a.ts, c, kind);
    } else {
      FollowsCompacted(sim, Elsewhere(a.locate), c, kind);
    }
  }

  // ----- every order of any stream -----

  /** The three relations that need no depth. */
  ghost predicate AllBracketed(orders: seq<SyntheticOrder>, c: Clock) {
    forall o :: o in orders ==> Bracketed(o.views, c) && Sane(o, c)
  }

  lemma BracketedHeard(st: Settings, b: Book, b': Book, m: Message, ts: u64, sim: Sim, coins: nat -> bool, c: Clock)
    requires AllBracketed(Everything(sim), c)
    ensures AllBracketed(Everything(sim.(live := Hears(b, b', m, ts, sim.live, coins, st.printsFill))), Later(c, ts))
  {
    hide Bracketed, Sane, HeardBy;
    var live := Hears(b, b', m, ts, sim.live, coins, st.printsFill);
    forall o | o in sim.swept + live ensures Bracketed(o.views, Later(c, ts)) && Sane(o, Later(c, ts)) {
      if o in sim.swept {
        assert o in Everything(sim);
        SaneBracketedLater(o, c, ts);
      } else {
        var j :| 0 <= j < |live| && live[j] == o;
        assert sim.live[j] in Everything(sim);
        BracketedAfterHearing(b, b', m, ts, sim.live[j], coins(j), st.printsFill, c);
      }
    }
  }

  lemma BracketedCompacted(sim: Sim, stays: SyntheticOrder -> bool, c: Clock)
    requires AllBracketed(Everything(sim), c) && AllOver(sim.swept)
    ensures var sim' := Compacted(sim, stays);
            sim'.s == sim.s && AllBracketed(Everything(sim'), c) && AllOver(sim'.swept)
  {
    hide Bracketed, Sane, ExpiredAll, AllOver, Everything;
    CompactedMembers(sim, stays);
    forall o | o in Everything(Compacted(sim, stays)) ensures Bracketed(o.views, c) && Sane(o, c) {
      if o !in Everything(sim) {
        var p :| p in Everything(sim) && o == ExpiredAll(p);
        BracketedAfterExpiry(p, c);
      }
    }
  }

  lemma BracketedJoin(sim: Sim, locate: Locate, side: u8, ts: u64, c: Clock)
    requires AllBracketed(Everything(sim), c)
    ensures AllBracketed(Everything(sim.(live := Joined(sim.s.book, sim.live, locate, side, ts))), c)
  {
    hide Best, Depth;
  }

  lemma {:induction false} BracketedJoinAll(sim: Sim, placing: seq<(Locate, u8)>, ts: u64, c: Clock)
    requires AllBracketed(Everything(sim), c)
    ensures AllBracketed(Everything(sim.(live := JoinedAll(sim.s.book, sim.live, placing, ts))), c)
    decreases |placing|
  {
    hide AllBracketed, Joined;
    if placing != [] {
      var n := |placing| - 1;
      BracketedJoinAll(sim, placing[..n], ts, c);
      BracketedJoin(sim.(live := JoinedAll(sim.s.book, sim.live, placing[..n], ts)), placing[n].0, placing[n].1, ts, c);
    }
  }

  lemma BracketedTicked(st: Settings, sim: Sim, ts: u64, placing: seq<(Locate, u8)>, c: Clock)
    requires AllBracketed(Everything(sim), c) && AllOver(sim.swept)
    ensures var sim' := Ticked(st, sim, ts, placing); AllBracketed(Everything(sim'), c) && AllOver(sim'.swept)
  {
    hide AllBracketed, AllOver, JoinedAll, Compacted;
    if ts >= sim.lastTs {
      BracketedCompacted(sim.(lastTs := ts, lastSweep := ts), Young(ts, st.maxLife), c);
      BracketedJoinAll(Swept(st, sim.(lastTs := ts), ts), placing, ts, c);
    }
  }

  /** They hold of every order of every stream, whatever its references, sides, sizes and times. */
  lemma {:induction false} StreamBracketed(st: Settings, run: seq<Action>)
    ensures AllBracketed(Everything(Streamed(st, run)), ClockAfter(run)) && AllOver(Streamed(st, run).swept)
  {
    hide AllBracketed, AllOver, Joined, Compacted, Ticked, Hears, BookAfter;
    if run == [] {
      NothingBracketed();
    } else {
      var n := |run| - 1;
      var front, a, c := Streamed(st, run[..n]), run[n], ClockAfter(run[..n]);
      StreamBracketed(st, run[..n]);
      match a
      case Heard(m, ts, coins, placing) =>
        var s' := BookAfter(front.s, m);
        var heard := front.(s := s', live := Hears(front.s.book, s'.book, m, ts, front.live, coins, st.printsFill));
        BracketedHeard(st, front.s.book, s'.book, m, ts, front.(s := s'), coins, c);
        BracketedTicked(st, heard, ts, placing, Later(c, ts));
      case Directed(locate, side, ts) => BracketedJoin(front, locate, side, ts, c);
      case Withdrawn(locate) => BracketedCompacted(front, Elsewhere(locate), c);
    }
  }

  lemma NothingBracketed()
    ensures AllBracketed(Everything(FRESH), START) && AllOver(FRESH.swept)
  {
  }

  // ----- the theorems -----

  /** Every order of every stream, live or over: optimistic is at least as near the front as Bernoulli, and both
      Bernoulli and proportional as conservative, and a fill under one is a fill under those it leads. Where times never
      go back it is also no later. On orderly streams the same holds of optimistic and proportional. */
  lemma EveryOrderRanks(st: Settings, run: seq<Action>, o: SyntheticOrder)
    requires o in Everything(Streamed(st, run))
    ensures var v := o.views;
            && (v.opt.live ==> v.bern.live && v.opt.ahead <= v.bern.ahead) && (v.bern.filled ==> v.opt.filled)
            && (v.bern.live ==> v.cons.live && v.bern.ahead <= v.cons.ahead) && (v.cons.filled ==> v.bern.filled)
            && (v.prop.live ==> v.cons.live && v.prop.ahead <= v.cons.ahead) && (v.cons.filled ==> v.prop.filled)
    ensures var v := o.views;
            ForwardRun(run) ==>
              && (v.bern.filled ==> v.opt.fillTs <= v.bern.fillTs)
              && (v.cons.filled ==> v.bern.fillTs <= v.cons.fillTs && v.prop.fillTs <= v.cons.fillTs)
    ensures var v := o.views;
            OrderlyRun(st, run) ==>
              && (v.opt.live ==> v.prop.live && v.opt.ahead <= v.prop.ahead) && (v.prop.filled ==> v.opt.filled)
              && (ForwardRun(run) && v.prop.filled ==> v.opt.fillTs <= v.prop.fillTs)
  {
    hide Depth, Streamed, OrderlyRun, ClockAfter;
    StreamBracketed(st, run);
    if ForwardRun(run) { ForwardClock(run); }
    if OrderlyRun(st, run) {
      StreamFollows(st, run);
      assert Placed(KindOf(st, run), o, Streamed(st, run).s.book, ClockAfter(run));
    }
  }

  /** While exact has an order of an orderly stream live, the references ahead are the front of its level's queue in the
      book. Its count is what they add up to where no message takes more than there is. Where orders have sizes and no
      execution takes more than there is, a conservative fill is an exact fill, and no later if times never go back. */
  lemma ExactKnows(st: Settings, run: seq<Action>, o: SyntheticOrder)
    requires OrderlyRun(st, run) && o in Everything(Streamed(st, run))
    ensures var q := Queue(Streamed(st, run).s.book, KeyAt(o));
            o.views.exact.live ==> exists n: nat :: n <= |q| && o.aheadRefs == Members(q[..n])
    ensures var b := Streamed(st, run).s.book;
            var q := Queue(b, KeyAt(o));
            NoOverTakeRun(st, run) && o.views.exact.live ==>
              exists n: nat :: n <= |q| && o.aheadRefs == Members(q[..n])
                && o.views.exact.ahead == SumShares(b.orders, q[..n]) as real
    ensures PlainRun(st, run) && o.views.cons.filled ==>
              o.views.exact.filled && (ForwardRun(run) ==> o.views.exact.fillTs <= o.views.cons.fillTs)
  {
    hide Depth, Streamed, OrderlyRun, NoOverTakeRun, PlainRun, ClockAfter, SumShares, Ranked;
    StreamFollows(st, run);
    var b := Streamed(st, run).s.book;
    assert Placed(KindOf(st, run), o, b, ClockAfter(run));
    if ForwardRun(run) { ForwardClock(run); }
    if o.views.exact.live {
      var sum: real :| Tracks(b, KeyAt(o), o.aheadRefs, sum);
      var n: nat :| First(b, KeyAt(o), o.aheadRefs, sum, n);
      assert o.aheadRefs == Members(Queue(b, KeyAt(o))[..n]);
      if NoOverTakeRun(st, run) {
        var k: nat :| First(b, KeyAt(o), o.aheadRefs, o.views.exact.ahead, k);
        assert o.aheadRefs == Members(Queue(b, KeyAt(o))[..k]);
      }
    }
  }

  /** The fills of a stream, counted over every order. */
  lemma FillsRank(st: Settings, run: seq<Action>)
    ensures var every := Everything(Streamed(st, run));
            && FilledCount(every, Conservative) <= FilledCount(every, Bernoulli) <= FilledCount(every, Optimistic)
            && FilledCount(every, Conservative) <= FilledCount(every, Proportional)
            && (OrderlyRun(st, run) ==> FilledCount(every, Proportional) <= FilledCount(every, Optimistic))
            && (OrderlyRun(st, run) && PlainRun(st, run) ==>
                  FilledCount(every, Conservative) <= FilledCount(every, Exact))
  {
    hide Streamed, OrderlyRun, PlainRun, FilledCount;
    var every := Everything(Streamed(st, run));
    forall o | o in every
      ensures FilledIn(o, Conservative) ==> FilledIn(o, Proportional) && FilledIn(o, Bernoulli)
      ensures FilledIn(o, Bernoulli) ==> FilledIn(o, Optimistic)
      ensures OrderlyRun(st, run) && FilledIn(o, Proportional) ==> FilledIn(o, Optimistic)
      ensures OrderlyRun(st, run) && PlainRun(st, run) && FilledIn(o, Conservative) ==> FilledIn(o, Exact)
    {
      EveryOrderRanks(st, run, o);
      if OrderlyRun(st, run) { ExactKnows(st, run, o); }
    }
    FillsFollow(every, Proportional, Conservative);
    FillsFollow(every, Bernoulli, Conservative);
    FillsFollow(every, Optimistic, Bernoulli);
    if OrderlyRun(st, run) {
      FillsFollow(every, Optimistic, Proportional);
      if PlainRun(st, run) { FillsFollow(every, Exact, Conservative); }
    }
  }
}
