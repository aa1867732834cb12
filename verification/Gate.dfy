/** The gate: every crossed or locked observation is excused by the symbol's trading state, or it fails the replay. */
module Gates {
  import opened BookTypes
  import opened BookSpec

  /** Trading and halt states as they appear on the wire, and that of a symbol without an action. */
  const TRADING: u8 := 'T' as u8
  const HALT: u8 := 'H' as u8
  const NO_ACTION: u8 := 0

  /** 100 ms: a reopening window that has to be timed out fails the gate. */
  const REOPEN_CAP: u64 := 100_000_000

  datatype TradingState = TradingState(state: u8, awaitingReopen: bool, operationallyHalted: bool, enteredT: u64)

  const UNSEEN := TradingState(NO_ACTION, false, false, 0)

  datatype Excuse = BeforeFirstAction | OperationallyHalted | NotTrading | AwaitingReopen | Unexplained

  datatype Buckets = Buckets(total: nat, beforeFirstAction: nat, operationalHalt: nat, notTrading: nat,
                             awaitingReopen: nat, unexplained: nat)

  const EMPTY_BUCKETS := Buckets(0, 0, 0, 0, 0, 0)

  datatype Gate = Gate(states: map<Locate, TradingState>, crossed: Buckets, locked: Buckets,
                       windows: nat, windowsCapped: nat, stateChanges: nat, halts: nat, releases: nat)

  const CLOSED := Gate(map[], EMPTY_BUCKETS, EMPTY_BUCKETS, 0, 0, 0, 0, 0)

  /** What the gate sees. Operational halts of other markets never reach it. */
  datatype Event =
    | Action(locate: Locate, ts: u64, state: u8)
    | Halted(locate: Locate, ts: u64, action: u8)
    | Crossing(locate: Locate, ts: u64)
    | Looked(locate: Locate, ts: u64, seen: Observation)

  function StateOf(g: Gate, l: Locate): TradingState { if l in g.states then g.states[l] else UNSEEN }

  function Put(g: Gate, l: Locate, t: TradingState): Gate { g.(states := g.states[l := t]) }

  function CountExcuse(b: Buckets, e: Excuse): Buckets {
    var c := b.(total := b.total + 1);
    match e
    case BeforeFirstAction => c.(beforeFirstAction := c.beforeFirstAction + 1)
    case OperationallyHalted => c.(operationalHalt := c.operationalHalt + 1)
    case NotTrading => c.(notTrading := c.notTrading + 1)
    case AwaitingReopen => c.(awaitingReopen := c.awaitingReopen + 1)
    case Unexplained => c.(unexplained := c.unexplained + 1)
  }

  /** Only a real transition into 'T' restarts the clock, and the session's first action opens no window. */
  function OnAction(g: Gate, l: Locate, ts: u64, st: u8): Gate {
    var t := StateOf(g, l);
    var entry := st == TRADING && t.state != TRADING;
    var opens := entry && t.state != NO_ACTION;
    var t1 := if entry then t.(enteredT := ts, awaitingReopen := t.awaitingReopen || opens) else t;
    Put(g, l, t1.(state := st)).(stateChanges := g.stateChanges + 1, windows := g.windows + if opens then 1 else 0)
  }

  function OnHalted(g: Gate, l: Locate, action: u8): Gate {
    var t := StateOf(g, l);
    if action == HALT then Put(g, l, t.(operationallyHalted := true)).(halts := g.halts + 1)
    else if action == TRADING then Put(g, l, t.(operationallyHalted := false)).(releases := g.releases + 1)
    else Put(g, l, t)
  }

  function OnCrossing(g: Gate, l: Locate): Gate {
    if l in g.states then Put(g, l, g.states[l].(awaitingReopen := false)) else g
  }

  /** The window is open but has outlived its cap. */
  predicate Expired(t: TradingState, ts: u64) { t.awaitingReopen && ts >= t.enteredT && ts - t.enteredT > REOPEN_CAP }

  function ExcuseFor(t: TradingState, ts: u64): Excuse {
    if t.state == NO_ACTION then BeforeFirstAction
    else if t.operationallyHalted then OperationallyHalted
    else if t.state != TRADING then NotTrading
    else if t.awaitingReopen && !Expired(t, ts) then AwaitingReopen
    else Unexplained
  }

  /** One look at a two-sided book. A clean one closes the window; a crossed or locked one times it out or is
      excused. */
  function OnLooked(g: Gate, l: Locate, ts: u64, seen: Observation): Gate {
    var t := StateOf(g, l);
    var capped := if Expired(t, ts) then Put(g, l, t.(awaitingReopen := false)).(windowsCapped := g.windowsCapped + 1)
        else g;
    match seen
    case OneSided => g
    case Apart => if t.awaitingReopen then Put(g, l, t.(awaitingReopen := false)) else g
    case LockedAt => capped.(locked := CountExcuse(g.locked, ExcuseFor(t, ts)))
    case CrossedAt => capped.(crossed := CountExcuse(g.crossed, ExcuseFor(t, ts)))
  }

  function Next(g: Gate, e: Event): Gate {
    match e
    case Action(l, ts, st) => OnAction(g, l, ts, st)
    case Halted(l, _, action) => OnHalted(g, l, action)
    case Crossing(l, _) => OnCrossing(g, l)
    case Looked(l, ts, seen) => OnLooked(g, l, ts, seen)
  }

  /** The gate after a whole run. */
  function After(run: seq<Event>): Gate {
    if run == [] then CLOSED else Next(After(run[..|run| - 1]), run[|run| - 1])
  }

  lemma AfterThen(run: seq<Event>, e: Event)
    ensures After(run + [e]) == Next(After(run), e)
  {
    hide Next;
    assert (run + [e])[..|run|] == run;
  }

  // ----- every observation is in exactly one bucket -----

  predicate Balanced(b: Buckets) {
    b.total == b.beforeFirstAction + b.operationalHalt + b.notTrading + b.awaitingReopen + b.unexplained
  }

  lemma NextBalances(g: Gate, e: Event)
    requires Balanced(g.crossed) && Balanced(g.locked)
    ensures Balanced(Next(g, e).crossed) && Balanced(Next(g, e).locked)
  {
  }

  lemma {:induction false} BucketsBalance(run: seq<Event>)
    ensures Balanced(After(run).crossed) && Balanced(After(run).locked)
  {
    if run != [] {
      BucketsBalance(run[..|run| - 1]);
      NextBalances(After(run[..|run| - 1]), run[|run| - 1]);
    }
  }

  // ----- what the run itself says of a symbol -----

  /** Timestamps never go back. */
  ghost predicate Ordered(run: seq<Event>) { forall i, j :: 0 <= i < j < |run| ==> run[i].ts <= run[j].ts }

  predicate ActsOn(run: seq<Event>, i: nat, l: Locate)
    requires i < |run|
  {
    run[i].Action? && run[i].locate == l
  }

  ghost predicate LatestAction(run: seq<Event>, n: nat, l: Locate, i: nat)
    requires n <= |run|
  {
    i < n && ActsOn(run, i, l) && forall j :: i < j < n ==> !ActsOn(run, j, l)
  }

  /** The symbol's latest action before event n gave it this state. */
  ghost predicate LastState(run: seq<Event>, n: nat, l: Locate, state: u8)
    requires n <= |run|
  {
    exists i: nat :: LatestAction(run, n, l, i) && run[i].state == state
  }

  /** 'H' halts and 'T' releases; any other halt action says nothing. */
  predicate HaltsOrReleases(run: seq<Event>, i: nat, l: Locate)
    requires i < |run|
  {
    run[i].Halted? && run[i].locate == l && (run[i].action == 'H' as u8 || run[i].action == 'T' as u8)
  }

  ghost predicate LatestHalt(run: seq<Event>, n: nat, l: Locate, i: nat)
    requires n <= |run|
  {
    i < n && HaltsOrReleases(run, i, l) && forall j :: i < j < n ==> !HaltsOrReleases(run, j, l)
  }

  /** The latest of those before event n was 'H'. */
  ghost predicate HaltedNow(run: seq<Event>, n: nat, l: Locate)
    requires n <= |run|
  {
    exists i: nat :: LatestHalt(run, n, l, i) && run[i].action == 'H' as u8
  }

  ghost predicate EntersTrading(run: seq<Event>, i: nat, l: Locate)
    requires i < |run|
  {
    ActsOn(run, i, l) && run[i].state == 'T' as u8 && !LastState(run, i, l, 'T' as u8)
  }

  /** A transition into 'T' from some other state: the only thing that opens a window. */
  ghost predicate Opens(run: seq<Event>, i: nat, l: Locate)
    requires i < |run|
  {
    EntersTrading(run, i, l) && exists state: u8 :: state != 0 && LastState(run, i, l, state)
  }

  /** The latest entry into 'T' before event n, if there was one. */
  ghost predicate LatestEntry(run: seq<Event>, n: nat, l: Locate, e: nat)
    requires n <= |run|
  {
    e < n && EntersTrading(run, e, l) && forall i :: e < i < n ==> !EntersTrading(run, i, l)
  }

  /** More than 100 ms have passed at event n since the latest entry into 'T'. */
  ghost predicate OverCap(run: seq<Event>, n: nat, l: Locate)
    requires n < |run|
  {
    exists e: nat :: LatestEntry(run, n, l, e) && run[n].ts > run[e].ts + 100_000_000
  }

  /** A look at the symbol that finds it crossed or locked. */
  predicate Meets(run: seq<Event>, i: nat, l: Locate)
    requires i < |run|
  {
    run[i].Looked? && run[i].locate == l && (run[i].seen.CrossedAt? || run[i].seen.LockedAt?)
  }

  /** Event i closes the window: a cross, a clean two-sided look, or a crossed or locked one over the cap. */
  ghost predicate Closes(run: seq<Event>, i: nat, l: Locate)
    requires i < |run|
  {
    && run[i].locate == l
    && (run[i].Crossing? || (run[i].Looked? && run[i].seen.Apart?) || (Meets(run, i, l) && OverCap(run, i, l)))
  }

  /** A window has opened before event n and nothing has closed it since. */
  ghost predicate WindowOpen(run: seq<Event>, n: nat, l: Locate)
    requires n <= |run|
  {
    exists o: nat :: o < n && Opens(run, o, l) && forall c :: o < c < n ==> !Closes(run, c, l)
  }

  /** Event i is counted as excused because the symbol's reopening has not run yet. */
  predicate ExcusedAwaiting(run: seq<Event>, i: nat, l: Locate)
    requires i < |run|
  {
    Meets(run, i, l) && ExcuseFor(StateOf(After(run[..i]), l), run[i].ts) == AwaitingReopen
  }

  // ----- the gate's state is what the run says -----

  lemma OneMoreEvent(run: seq<Event>, n: nat)
    requires n < |run|
    ensures After(run[..n + 1]) == Next(After(run[..n]), run[n])
  {
    hide Next;
    assert run[..n + 1][..n] == run[..n] && run[..n + 1][n] == run[n];
  }

  lemma NothingCounted(run: seq<Event>)
    ensures After(run[..0]) == CLOSED
  {
  }

  lemma NothingActed(run: seq<Event>, l: Locate)
    ensures (forall x :: !LastState(run, 0, l, x)) && !HaltedNow(run, 0, l)
  {
  }

  lemma {:induction false} StateIs(run: seq<Event>, n: nat, l: Locate)
    requires n <= |run|
    ensures var s := StateOf(After(run[..n]), l).state;
            && (s != 0 ==> LastState(run, n, l, s)) && forall x :: LastState(run, n, l, x) ==> x == s
    decreases n
  {
    hide After, LastState;
    if n == 0 {
      NothingCounted(run);
      NothingActed(run, l);
    } else {
      StateIs(run, n - 1, l);
      OneMoreEvent(run, n - 1);
      var s := StateOf(After(run[..n]), l).state;
      LastStateStep(run, n - 1, l, s);
      forall x | LastState(run, n, l, x) ensures x == s { LastStateStep(run, n - 1, l, x); }
    }
  }

  lemma LastStateStep(run: seq<Event>, n: nat, l: Locate, x: u8)
    requires n < |run|
    ensures LastState(run, n + 1, l, x) <==> if ActsOn(run, n, l) then run[n].state == x else LastState(run, n, l, x)
  {
    forall i: nat ensures LatestAction(run, n + 1, l, i) <==>
                          if ActsOn(run, n, l) then i == n else LatestAction(run, n, l, i) {}
    if ActsOn(run, n, l) { assert LatestAction(run, n + 1, l, n); }
  }

  lemma {:induction false} HaltIs(run: seq<Event>, n: nat, l: Locate)
    requires n <= |run|
    ensures StateOf(After(run[..n]), l).operationallyHalted <==> HaltedNow(run, n, l)
    decreases n
  {
    hide After, HaltedNow;
    if n == 0 {
      NothingCounted(run);
      NothingActed(run, l);
    } else {
      HaltIs(run, n - 1, l);
      OneMoreEvent(run, n - 1);
      HaltedNowStep(run, n - 1, l);
    }
  }

  lemma HaltedNowStep(run: seq<Event>, n: nat, l: Locate)
    requires n < |run|
    ensures HaltedNow(run, n + 1, l) <==>
            if HaltsOrReleases(run, n, l) then run[n].action == 'H' as u8 else HaltedNow(run, n, l)
  {
    hide HaltsOrReleases;
    forall i: nat ensures LatestHalt(run, n + 1, l, i) <==>
                          if HaltsOrReleases(run, n, l) then i == n else LatestHalt(run, n, l, i) {}
    if HaltsOrReleases(run, n, l) { assert LatestHalt(run, n + 1, l, n); }
  }

  /** How one event moves the clock and the window. */
  lemma OneEvent(run: seq<Event>, n: nat, l: Locate)
    requires n < |run|
    ensures var t, t' := StateOf(After(run[..n]), l), StateOf(After(run[..n + 1]), l);
            && (EntersTrading(run, n, l) ==> t'.enteredT == run[n].ts)
            && (!EntersTrading(run, n, l) ==> t'.enteredT == t.enteredT && (t'.state == TRADING ==> t.state == TRADING))
            && (Opens(run, n, l) ==> t'.awaitingReopen)
            && (!Opens(run, n, l) && t'.awaitingReopen ==> t.awaitingReopen)
            && (t.awaitingReopen && !t'.awaitingReopen ==>
                  && run[n].locate == l
                  && (run[n].Crossing? || (run[n].Looked? && run[n].seen.Apart?)
                      || (Meets(run, n, l) && Expired(t, run[n].ts))))
            && (run[n].locate == l && run[n].Crossing? ==> !t'.awaitingReopen)
            && (run[n].locate == l && run[n].Looked? && run[n].seen.Apart? ==> !t'.awaitingReopen)
            && (Meets(run, n, l) && Expired(t, run[n].ts) ==> !t'.awaitingReopen)
  {
    hide LastState, After;
    StateIs(run, n, l);
    OneMoreEvent(run, n);
  }

  /** While a symbol is in 'T' or a window is open, the clock shows the latest entry into 'T'. */
  lemma {:induction false} ClockShowsEntry(run: seq<Event>, n: nat, l: Locate) returns (e: nat)
    requires n <= |run|
    requires var t := StateOf(After(run[..n]), l); t.state == TRADING || t.awaitingReopen
    ensures LatestEntry(run, n, l, e) && StateOf(After(run[..n]), l).enteredT == run[e].ts
    decreases n
  {
    hide EntersTrading, Next, Expired, Meets;
    assert n > 0;
    OneEvent(run, n - 1, l);
    if EntersTrading(run, n - 1, l) {
      e := n - 1;
    } else {
      assert !Opens(run, n - 1, l);
      e := ClockShowsEntry(run, n - 1, l);
    }
  }

  lemma OneLatestEntry(run: seq<Event>, n: nat, l: Locate, d: nat, e: nat)
    requires n <= |run| && LatestEntry(run, n, l, d) && LatestEntry(run, n, l, e)
    ensures d == e
  {
    hide EntersTrading;
  }

  /** While a window is open, it has outlived its cap exactly when the run says so. */
  lemma ExpiredIsOverCap(run: seq<Event>, n: nat, l: Locate)
    requires n < |run| && StateOf(After(run[..n]), l).awaitingReopen
    ensures Expired(StateOf(After(run[..n]), l), run[n].ts) <==> OverCap(run, n, l)
  {
    hide LatestEntry, After;
    var e := ClockShowsEntry(run, n, l);
    forall d | LatestEntry(run, n, l, d) ensures d == e { OneLatestEntry(run, n, l, d, e); }
  }

  lemma {:induction false} WindowIs(run: seq<Event>, n: nat, l: Locate)
    requires n <= |run|
    ensures StateOf(After(run[..n]), l).awaitingReopen <==> WindowOpen(run, n, l)
    decreases n
  {
    hide After, Opens, OverCap, Expired, Meets, WindowOpen;
    if n == 0 {
      NothingOpen(run, l);
    } else {
      WindowIs(run, n - 1, l);
      OneEvent(run, n - 1, l);
      WindowStep(run, n - 1, l);
      if StateOf(After(run[..n - 1]), l).awaitingReopen { ExpiredIsOverCap(run, n - 1, l); }
    }
  }

  lemma NothingOpen(run: seq<Event>, l: Locate)
    ensures !StateOf(After(run[..0]), l).awaitingReopen && !WindowOpen(run, 0, l)
  {
  }

  lemma WindowStep(run: seq<Event>, n: nat, l: Locate)
    requires n < |run|
    ensures WindowOpen(run, n + 1, l) <==> Opens(run, n, l) || (WindowOpen(run, n, l) && !Closes(run, n, l))
  {
    hide Opens, Closes;
  }

  // ----- the bucket of every observation -----

  /** The buckets that the look at event i is counted in. */
  function Counted(g: Gate, seen: Observation): Buckets { if seen.CrossedAt? then g.crossed else g.locked }

  function Uncounted(g: Gate, seen: Observation): Buckets { if seen.CrossedAt? then g.locked else g.crossed }

  /** Before the symbol's first action with a state, or while its state is none. */
  ghost predicate BeforeAction(run: seq<Event>, i: nat, l: Locate)
    requires i < |run|
  {
    !exists state: u8 :: state != 0 && LastState(run, i, l, state)
  }

  ghost predicate Trades(run: seq<Event>, i: nat, l: Locate)
    requires i < |run|
  {
    LastState(run, i, l, 'T' as u8) && !HaltedNow(run, i, l)
  }

  /** The symbol trades, and no reopening excuses it: this is what fails the gate. */
  ghost predicate Fails(run: seq<Event>, i: nat, l: Locate)
    requires i < |run|
  {
    Trades(run, i, l) && !(WindowOpen(run, i, l) && !OverCap(run, i, l))
  }

  /** A crossed or locked look is counted once, in the bucket that the run before it says, and in no other. */
  lemma LandsInItsBucket(run: seq<Event>, i: nat, l: Locate)
    requires i < |run| && Meets(run, i, l)
    ensures var g, g' := After(run[..i]), After(run[..i + 1]);
            var b, b' := Counted(g, run[i].seen), Counted(g', run[i].seen);
            && Uncounted(g', run[i].seen) == Uncounted(g, run[i].seen)
            && b'.total == b.total + 1
            && b'.beforeFirstAction == b.beforeFirstAction + One(BeforeAction(run, i, l))
            && b'.operationalHalt == b.operationalHalt + One(!BeforeAction(run, i, l) && HaltedNow(run, i, l))
            && b'.notTrading == b.notTrading + One(!BeforeAction(run, i, l) && !HaltedNow(run, i, l)
                                                   && !LastState(run, i, l, 'T' as u8))
            && b'.awaitingReopen == b.awaitingReopen + One(Trades(run, i, l) && WindowOpen(run, i, l)
                                                           && !OverCap(run, i, l))
            && b'.unexplained == b.unexplained + One(Fails(run, i, l))
  {
    hide After, LastState, HaltedNow, WindowOpen, OverCap;
    OneMoreEvent(run, i);
    StateIs(run, i, l);
    HaltIs(run, i, l);
    WindowIs(run, i, l);
    var t := StateOf(After(run[..i]), l);
    if t.awaitingReopen { ExpiredIsOverCap(run, i, l); }
  }

  /** Nothing else is counted. */
  lemma OthersAreNotCounted(run: seq<Event>, i: nat)
    requires i < |run| && !(run[i].Looked? && Meets(run, i, run[i].locate))
    ensures var g, g' := After(run[..i]), After(run[..i + 1]); g'.crossed == g.crossed && g'.locked == g.locked
  {
    OneMoreEvent(run, i);
  }

  /** A run passes the gate exactly when none of its crossed or locked looks fails it. */
  lemma {:induction false} PassesExactly(run: seq<Event>, n: nat)
    requires n <= |run|
    ensures var g := After(run[..n]);
            g.crossed.unexplained == g.locked.unexplained == 0 <==>
            forall i: nat, l :: i < n && Meets(run, i, l) ==> !Fails(run, i, l)
    decreases n
  {
    hide After, Fails, Trades, BeforeAction, OverCap, WindowOpen, LastState, HaltedNow, Next;
    if n == 0 {
      NothingCounted(run);
    } else {
      PassesExactly(run, n - 1);
      if Meets(run, n - 1, run[n - 1].locate) {
        LandsInItsBucket(run, n - 1, run[n - 1].locate);
      } else {
        OthersAreNotCounted(run, n - 1);
      }
    }
  }

  /** The other counters: each counts its own kind of event. */
  lemma GateCounts(run: seq<Event>, i: nat)
    requires i < |run|
    ensures var g, g', l := After(run[..i]), After(run[..i + 1]), run[i].locate;
            && g'.stateChanges == g.stateChanges + One(run[i].Action?)
            && g'.halts == g.halts + One(run[i].Halted? && run[i].action == 'H' as u8)
            && g'.releases == g.releases + One(run[i].Halted? && run[i].action == 'T' as u8)
            && g'.windows == g.windows + One(Opens(run, i, l))
            && g'.windowsCapped == g.windowsCapped
                                   + One(Meets(run, i, l) && WindowOpen(run, i, l) && OverCap(run, i, l))
  {
    hide After, LastState, WindowOpen, OverCap;
    var l := run[i].locate;
    OneMoreEvent(run, i);
    StateIs(run, i, l);
    WindowIs(run, i, l);
    if StateOf(After(run[..i]), l).awaitingReopen { ExpiredIsOverCap(run, i, l); }
  }

  // ----- what the reopening excuse rests on -----

  /** An observation is excused as awaiting the reopening only while the symbol trades, and within the cap of its latest
      entry into 'T'. */
  lemma ExcuseIsBounded(run: seq<Event>, i: nat, l: Locate) returns (e: nat)
    requires i < |run| && Ordered(run) && ExcusedAwaiting(run, i, l)
    ensures LastState(run, i, l, 'T' as u8) && !HaltedNow(run, i, l)
    ensures LatestEntry(run, i, l, e) && run[e].ts <= run[i].ts <= run[e].ts + 100_000_000
  {
    hide LastState, HaltedNow, LatestEntry, After;
    StateIs(run, i, l);
    HaltIs(run, i, l);
    e := ClockShowsEntry(run, i, l);
    EntryIsBefore(run, i, l, e);
  }

  lemma EntryIsBefore(run: seq<Event>, i: nat, l: Locate, e: nat)
    requires i < |run| && Ordered(run) && LatestEntry(run, i, l, e)
    ensures e < i && run[e].ts <= run[i].ts
  {
  }

  lemma ClosingShuts(run: seq<Event>, c: nat, l: Locate)
    requires c < |run| && Closes(run, c, l)
    ensures !StateOf(After(run[..c + 1]), l).awaitingReopen
  {
    hide After, Opens, OverCap, Expired, Meets, WindowOpen;
    WindowIs(run, c + 1, l);
    WindowStep(run, c, l);
    ClosingOpensNothing(run, c, l);
  }

  lemma ClosingOpensNothing(run: seq<Event>, c: nat, l: Locate)
    requires c < |run| && Closes(run, c, l)
    ensures !Opens(run, c, l)
  {
  }

  lemma {:induction false} StaysShut(run: seq<Event>, c: nat, n: nat, l: Locate)
    requires c <= n <= |run| && !StateOf(After(run[..c]), l).awaitingReopen
    requires forall i :: c <= i < n ==> !Opens(run, i, l)
    ensures !StateOf(After(run[..n]), l).awaitingReopen
    decreases n - c
  {
    hide EntersTrading, Opens, After, Expired, Meets;
    if c < n {
      StaysShut(run, c, n - 1, l);
      OneEvent(run, n - 1, l);
    }
  }

  /** Once a window has closed, no observation is excused by it until a new halt ends. */
  lemma NoExcuseAfterClosing(run: seq<Event>, c: nat, n: nat, l: Locate)
    requires c < n < |run| && Closes(run, c, l) && ExcusedAwaiting(run, n, l)
    ensures exists i :: c < i < n && Opens(run, i, l)
  {
    hide Opens, Closes, After;
    ClosingShuts(run, c, l);
    if forall i :: c + 1 <= i < n ==> !Opens(run, i, l) { StaysShut(run, c + 1, n, l); }
  }
}
