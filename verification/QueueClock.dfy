/** How long an order of the simulator can live: its limit, and at most one sweep interval more. */
module QueueClocks {
  import opened BookTypes
  import opened BookSpec
  import opened QueueModels
  import opened QueueBooks
  import opened QueueTallies
  import opened QueueStreams

  // ----- what the other steps leave alone -----

  /** o' is o after something that can only have ended it. */
  predicate SameEntry(o: SyntheticOrder, o': SyntheticOrder) {
    o'.entered == o.entered && o'.locate == o.locate && (o'.anyLive ==> o.anyLive)
  }

  lemma HeardKeepsEntry(b: Book, b': Book, m: Message, ts: u64, o: SyntheticOrder, coin: bool, printsFill: bool)
    ensures SameEntry(o, HeardBy(b, b', m, ts, o, coin, printsFill))
  {
    hide AfterExecution, AfterCancel, AfterPrint, Depth;
    if m.Trade? {
      PrintedKeepsEntry(o, m.price, ts);
    } else if Removal(b, m).Some? {
      var g := Removal(b, m).value;
      ExecutedKeepsEntry(o, Resolve(b, g.ref), g.qty, ts);
      CancelledKeepsEntry(o, Resolve(b, g.ref), g.qty, Depth(b', KeyAt(o)), coin);
    }
  }

  lemma PrintedKeepsEntry(o: SyntheticOrder, price: Price, ts: u64)
    ensures SameEntry(o, AfterPrint(o, price, ts))
  {
    hide FilledFirst;
    FilledAllViews(o, ts, NonDisplayedPrint);
  }

  lemma ExecutedKeepsEntry(o: SyntheticOrder, r: Resolved, qty: Shares, ts: u64)
    ensures SameEntry(o, AfterExecution(o, r, qty, ts))
  {
    hide AfterExecution, FilledFirst;
    if !o.anyLive || o.side != r.side || (!Worse(o, r) && r.price != o.price) {
      UntouchedByExecution(o, r, qty, ts);
    } else if Worse(o, r) {
      WalkedThrough(o, r, qty, ts);
      FilledAllViews(o, ts, TradeThrough);
    } else {
      ExecutionViews(o, r, qty, ts);
    }
  }

  lemma CancelledKeepsEntry(o: SyntheticOrder, r: Resolved, qty: Shares, after: nat, coin: bool)
    ensures SameEntry(o, AfterCancel(o, r, qty, after, coin))
  {
    hide Heads, Portion, Lowered;
  }

  // ----- one sweep -----

  lemma JoinedIs(b: Book, live: seq<SyntheticOrder>, locate: Locate, side: u8, ts: u64)
    ensures var live' := Joined(b, live, locate, side, ts);
            live <= live' && forall o :: o in live' ==> o in live || o.entered == ts
  {
    hide Best;
  }

  lemma {:induction false} JoinedAllIs(b: Book, live: seq<SyntheticOrder>, placing: seq<(Locate, u8)>, ts: u64)
    ensures var live' := JoinedAll(b, live, placing, ts);
            live <= live' && forall o :: o in live' ==> o in live || o.entered == ts
  {
    hide Joined;
    if placing != [] {
      var n := |placing| - 1;
      JoinedAllIs(b, live, placing[..n], ts);
      JoinedIs(b, JoinedAll(b, live, placing[..n], ts), placing[n].0, placing[n].1, ts);
    }
  }

  lemma CompactedStays(sim: Sim, stays: SyntheticOrder -> bool)
    ensures Compacted(sim, stays).live == Staying(sim.live, stays)
    ensures forall o :: o in Compacted(sim, stays).live <==> o in sim.live && o.anyLive && stays(o)
  {
    hide ExpiredAll;
    KeptStay(sim.live, Marked(sim.live, stays), stays);
    StayingMembers(sim.live, stays);
  }

  /** The clock moves to a time that is no earlier. A sweep is due when 100 ms have passed since the last one; it keeps
      exactly the live orders younger than their limit, and without one every order stays. Whatever joins has entered
      just now. */
  lemma SweepsExactly(st: Settings, sim: Sim, ts: u64, placing: seq<(Locate, u8)>)
    requires sim.lastSweep <= sim.lastTs <= ts && forall o :: o in sim.live ==> o.entered <= ts
    ensures var sim', due := Ticked(st, sim, ts, placing), ts - sim.lastSweep >= 100_000_000;
            && sim'.lastTs == ts && sim'.lastSweep == (if due then ts else sim.lastSweep)
            && (forall o :: o in sim.live && (!due || (o.anyLive && ts - o.entered < st.maxLife)) ==> o in sim'.live)
            && (forall o :: o in sim'.live ==>
                  o.entered == ts || (o in sim.live && (!due || (o.anyLive && ts - o.entered < st.maxLife))))
  {
    hide JoinedAll, Compacted;
    var moved := sim.(lastTs := ts);
    CompactedStays(moved.(lastSweep := ts), Young(ts, st.maxLife));
    CompactedTimes(moved.(lastSweep := ts), Young(ts, st.maxLife));
    JoinedAllIs(sim.s.book, Swept(st, moved, ts).live, placing, ts);
  }

  lemma CompactedTimes(sim: Sim, stays: SyntheticOrder -> bool)
    ensures var sim' := Compacted(sim, stays);
            sim'.lastTs == sim.lastTs && sim'.lastSweep == sim.lastSweep && sim'.s == sim.s
  {
  }

  // ----- every order of every stream -----

  /** Orders placed from outside enter at the time of the clock. */
  ghost predicate PlacedOnTime(st: Settings, run: seq<Action>) {
    forall i :: 0 <= i < |run| && run[i].Directed? ==> run[i].ts == Streamed(st, run[..i]).lastTs
  }

  /** The last sweep is less than an interval ago, and every live order was young then or has entered since. */
  ghost predicate Timely(st: Settings, sim: Sim) {
    && sim.lastSweep <= sim.lastTs < sim.lastSweep + 100_000_000
    && forall o :: o in sim.live && o.anyLive ==> InTime(st, sim, o)
  }

  predicate InTime(st: Settings, sim: Sim, o: SyntheticOrder) {
    o.entered <= sim.lastTs && (o.entered >= sim.lastSweep || sim.lastSweep - o.entered < st.maxLife)
  }

  lemma TimelyAfterHearing(st: Settings, sim: Sim, sim': Sim, b: Book, b': Book, m: Message, ts: u64,
                           coins: nat -> bool)
    requires Timely(st, sim) && sim'.lastTs == sim.lastTs && sim'.lastSweep == sim.lastSweep
    requires sim'.live == Hears(b, b', m, ts, sim.live, coins, st.printsFill)
    ensures Timely(st, sim')
  {
    hide HeardBy;
    forall o | o in sim'.live && o.anyLive ensures InTime(st, sim', o) {
      var j :| 0 <= j < |sim'.live| && sim'.live[j] == o;
      HeardKeepsEntry(b, b', m, ts, sim.live[j], coins(j), st.printsFill);
      assert sim.live[j] in sim.live;
    }
  }

  lemma TimelyAfterTick(st: Settings, sim: Sim, ts: u64, placing: seq<(Locate, u8)>)
    requires Timely(st, sim)
    ensures Timely(st, Ticked(st, sim, ts, placing))
  {
    hide Ticked;
    if ts < sim.lastTs {
      ClockIgnores(st, sim, ts, placing);
    } else {
      TicksInTime(st, sim, ts, placing);
    }
  }

  lemma ClockIgnores(st: Settings, sim: Sim, ts: u64, placing: seq<(Locate, u8)>)
    requires ts < sim.lastTs
    ensures Ticked(st, sim, ts, placing) == sim
  {
  }

  /** As for a sweep, when some orders that are over may have entered at any time. */
  lemma TicksInTime(st: Settings, sim: Sim, ts: u64, placing: seq<(Locate, u8)>)
    requires Timely(st, sim) && sim.lastTs <= ts
    ensures Timely(st, Ticked(st, sim, ts, placing))
  {
    hide JoinedAll, Compacted;
    var moved := sim.(lastTs := ts);
    CompactedStays(moved.(lastSweep := ts), Young(ts, st.maxLife));
    CompactedTimes(moved.(lastSweep := ts), Young(ts, st.maxLife));
    JoinedAllIs(sim.s.book, Swept(st, moved, ts).live, placing, ts);
  }

  lemma TimelyAfter(st: Settings, sim: Sim, a: Action)
    requires Timely(st, sim) && (a.Directed? ==> a.ts == sim.lastTs)
    ensures Timely(st, QueueStreams.Next(st, sim, a))
  {
    hide Ticked, Hears, Joined, Compacted, BookAfter, Timely;
    match a
    case Heard(m, ts, coins, placing) =>
      var b' := BookAfter(sim.s, m);
      var heard := sim.(s := b', live := Hears(sim.s.book, b'.book, m, ts, sim.live, coins, st.printsFill));
      TimelyAfterHearing(st, sim, heard, sim.s.book, b'.book, m, ts, coins);
      TimelyAfterTick(st, heard, ts, placing);
    case Directed(locate, side, ts) => TimelyAfterJoining(st, sim, locate, side);
    case Withdrawn(locate) => TimelyAfterCompacting(st, sim, Elsewhere(locate));
  }

  lemma TimelyAfterJoining(st: Settings, sim: Sim, locate: Locate, side: u8)
    requires Timely(st, sim)
    ensures Timely(st, sim.(live := Joined(sim.s.book, sim.live, locate, side, sim.lastTs)))
  {
    hide Joined;
    JoinedIs(sim.s.book, sim.live, locate, side, sim.lastTs);
  }

  lemma TimelyAfterCompacting(st: Settings, sim: Sim, stays: SyntheticOrder -> bool)
    requires Timely(st, sim)
    ensures Timely(st, Compacted(sim, stays))
  {
    hide Compacted;
    CompactedStays(sim, stays);
    CompactedTimes(sim, stays);
  }

  lemma {:induction false} StreamTimely(st: Settings, run: seq<Action>)
    requires PlacedOnTime(st, run)
    ensures Timely(st, Streamed(st, run))
  {
    hide QueueStreams.Next;
    if run != [] {
      var n := |run| - 1;
      forall i | 0 <= i < n && run[..n][i].Directed? ensures run[..n][i].ts == Streamed(st, run[..n][..i]).lastTs {
        assert run[..n][..i] == run[..i];
      }
      StreamTimely(st, run[..n]);
      TimelyAfter(st, Streamed(st, run[..n]), run[n]);
    }
  }

  /** After any stream, whatever the times in it: an order that some model still has live is younger than its limit and
      one interval between sweeps. */
  lemma OutlivesByOneSweep(st: Settings, run: seq<Action>, o: SyntheticOrder)
    requires PlacedOnTime(st, run) && o in Streamed(st, run).live && o.anyLive
    ensures o.entered <= Streamed(st, run).lastTs < o.entered + st.maxLife + 100_000_000
  {
    StreamTimely(st, run);
    assert InTime(st, Streamed(st, run), o);
  }
}
