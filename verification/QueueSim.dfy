/** The simulator: synthetic orders tracked by five models over one stream of book events. */
module QueueSims {
  import opened BookTypes
  import opened BookSpec
  import opened ReferenceBooks
  import opened QueueModels
  import opened QueueBooks
  import opened QueueTallies
  import opened QueueStreams

  // ----- the positions of a symbol's orders -----

  function At(byLocate: map<Locate, seq<nat>>, l: Locate): seq<nat> { if l in byLocate then byLocate[l] else [] }

  function Positions(live: seq<SyntheticOrder>, l: Locate): seq<nat> {
    if live == [] then []
    else
      var front, n := Positions(live[..|live| - 1], l), |live| - 1;
      if live[n].locate == l then front + [n] else front
  }

  /** Every symbol's list holds exactly the positions of its orders. */
  ghost predicate Indexed(live: seq<SyntheticOrder>, byLocate: map<Locate, seq<nat>>) {
    forall l :: At(byLocate, l) == Positions(live, l)
  }

  lemma {:induction false} PositionsExact(live: seq<SyntheticOrder>, l: Locate)
    ensures forall i: nat :: i in Positions(live, l) <==> i < |live| && live[i].locate == l
    ensures Distinct(Positions(live, l))
  {
    if live != [] {
      var n := |live| - 1;
      var front := Positions(live[..n], l);
      PositionsExact(live[..n], l);
      forall j | 0 <= j < |front| ensures front[j] < n { assert front[j] in front; }
      forall i: nat ensures i in front + [n] <==> i in front || i == n {}
    }
  }

  lemma {:induction false} PositionsFrame(live: seq<SyntheticOrder>, live': seq<SyntheticOrder>, l: Locate)
    requires |live| == |live'| && forall i :: 0 <= i < |live| ==> live[i].locate == live'[i].locate
    ensures Positions(live, l) == Positions(live', l)
  {
    if live != [] { PositionsFrame(live[..|live| - 1], live'[..|live| - 1], l); }
  }

  lemma PositionsAppend(live: seq<SyntheticOrder>, o: SyntheticOrder, l: Locate)
    ensures Positions(live + [o], l) == if o.locate == l then Positions(live, l) + [|live|] else Positions(live, l)
  {
    assert (live + [o])[..|live|] == live;
  }

  /** A model has an order live until it fills it or gives it up; the order lasts as long as any model has it live. */
  predicate Alive(o: SyntheticOrder) {
    (o.anyLive <==> !NoneLive(o)) && forall m: QueueModel :: !(LiveIn(o, m) && FilledIn(o, m))
  }

  lemma AliveWhenFilled(o: SyntheticOrder, m: QueueModel, ts: u64, why: FillReason)
    requires Alive(o)
    ensures Alive(Filled(o, m, ts, why)) && !LiveIn(Filled(o, m, ts, why), m)
    ensures LiveIn(o, m) ==> !FilledIn(o, m) && FilledIn(Filled(o, m, ts, why), m)
  {
    forall n: QueueModel ensures !(LiveIn(Filled(o, m, ts, why), n) && FilledIn(Filled(o, m, ts, why), n)) {
      assert !(LiveIn(o, n) && FilledIn(o, n));
    }
  }

  lemma AliveWhenPut(o: SyntheticOrder, m: QueueModel, s: ModelState)
    requires Alive(o) && s.live == View(o.views, m).live && s.filled == View(o.views, m).filled
    ensures Alive(Put(o, m, s)) && SameKeys(Put(o, m, s), o)
    ensures forall n: QueueModel ::
              LiveIn(Put(o, m, s), n) == LiveIn(o, n) && FilledIn(Put(o, m, s), n) == FilledIn(o, n)
  {
    forall n: QueueModel
      ensures LiveIn(Put(o, m, s), n) == LiveIn(o, n) && FilledIn(Put(o, m, s), n) == FilledIn(o, n) {}
    assert NoneLive(o) <==> forall n: QueueModel :: !LiveIn(o, n) by { LiveModels(o); }
    assert NoneLive(Put(o, m, s)) <==> forall n: QueueModel :: !LiveIn(Put(o, m, s), n) by { LiveModels(Put(o, m, s)); }
  }

  lemma LiveModels(o: SyntheticOrder)
    ensures NoneLive(o) <==> forall n: QueueModel :: !LiveIn(o, n)
  {
    assert LiveIn(o, Exact) == o.views.exact.live && LiveIn(o, Conservative) == o.views.cons.live;
    assert LiveIn(o, Optimistic) == o.views.opt.live && LiveIn(o, Proportional) == o.views.prop.live;
    assert LiveIn(o, Bernoulli) == o.views.bern.live;
  }

  lemma DeadAreOver(live: seq<SyntheticOrder>)
    requires forall o :: o in live ==> Alive(o)
    ensures forall o :: o in live && !o.anyLive ==> NoneLive(o)
  {
  }

  lemma JoinAlive(live: seq<SyntheticOrder>, o: SyntheticOrder)
    requires (forall p :: p in live ==> Alive(p)) && Alive(o)
    ensures forall p :: p in live + [o] ==> Alive(p)
  {
  }

  class QueueSimulator {
    const book: ReferenceBook
    const maxLife: u64
    const printsFill: bool
    const timer: bool
    var live: seq<SyntheticOrder>
    var byLocate: map<Locate, seq<nat>>
    var results: map<QueueModel, ModelResults>
    var placements: nat
    var skipped: nat
    var lastTs: u64
    var lastSweep: u64
    /** The orders since swept out. */
    ghost var swept: seq<SyntheticOrder>

    /** The same orders were placed under every model, and each is accounted for. */
    ghost predicate Accounts()
      reads `live, `results, `placements, `swept
    {
      Totals() && forall o :: o in live ==> Alive(o)
    }

    ghost predicate Totals()
      reads `live, `results, `placements, `swept
    {
      forall m: QueueModel :: m in results && Tallied(results[m], live, m, FilledCount(swept, m))
          && results[m].placed == placements
    }

    ghost predicate Valid()
      reads this, book
    {
      book.Valid() && Accounts() && Indexed(live, byLocate)
    }

    /** What the simulator stands for. */
    ghost function Now(): Sim
      reads this, book
    {
      Sim(book.Abs(), live, swept, lastTs, lastSweep)
    }

    ghost function Rules(): Settings { Settings(maxLife, printsFill, timer) }

    constructor (maxLife: u64, printsFill: bool, timer: bool)
      ensures Valid() && Now() == FRESH && Rules() == Settings(maxLife, printsFill, timer) && placements == 0
              && fresh(book)
    {
      hide ReferenceBook.Valid, Tallied;
      book := new ReferenceBook(81);
      this.maxLife, this.printsFill, this.timer := maxLife, printsFill, timer;
      live, byLocate, placements, skipped, lastTs, lastSweep, swept := [], map[], 0, 0, 0, 0, [];
      results := map[Exact := NO_RESULTS, Conservative := NO_RESULTS, Optimistic := NO_RESULTS,
                     Proportional := NO_RESULTS, Bernoulli := NO_RESULTS];
      new;
      StartsEmpty(results);
    }

    lemma StartsEmpty(results: map<QueueModel, ModelResults>)
      requires results == map[Exact := NO_RESULTS, Conservative := NO_RESULTS, Optimistic := NO_RESULTS,
                              Proportional := NO_RESULTS, Bernoulli := NO_RESULTS]
      ensures forall m: QueueModel :: m in results && Tallied(results[m], [], m, 0) && results[m].placed == 0
    {
      hide Tallied;
      forall m: QueueModel ensures m in results && results[m] == NO_RESULTS && Tallied(NO_RESULTS, [], m, 0) {
        TalliedAtStart(m);
        match m
        case Exact =>
        case Conservative =>
        case Optimistic =>
        case Proportional =>
        case Bernoulli =>
      }
    }

    // ----- fills and expiries -----

    /** One order filled under one model. */
    method FillAt(i: nat, m: QueueModel, ts: u64, why: FillReason)
      requires Accounts() && i < |live| && why in {ExecutionBehind, TradeThrough, NonDisplayedPrint}
      modifies `live, `results
      ensures Accounts() && live == old(live)[i := Filled(old(live)[i], m, ts, why)]
    {
      hide Tallied, CountFilled, Alive, Refreshed, Filled, FilledCount;
      var o := live[i];
      var s := View(o.views, m);
      if !s.live {
        NotFilled(o, m, ts, why);
        return;
      }
      IsFilled(o, m, ts, why);
      AfterFilling(i, m, ts, why);
      results := results[m := CountFilled(results[m], o, ts, why)];
      live := live[i := Refreshed(Put(o, m, s.(live := false, filled := true, reason := why, fillTs := ts)))];
    }

    /** The accounts after one fill: one model's results count it, and for every other model nothing has changed. */
    lemma AfterFilling(i: nat, m: QueueModel, ts: u64, why: FillReason)
      requires Accounts() && i < |live| && View(live[i].views, m).live
               && why in {ExecutionBehind, TradeThrough, NonDisplayedPrint}
      ensures var o := live[i];
              var live' := live[i := Filled(o, m, ts, why)];
              && CountFilled(results[m], o, ts, why).placed == placements
              && Tallied(CountFilled(results[m], o, ts, why), live', m, FilledCount(swept, m))
              && (forall n: QueueModel :: n != m ==> Tallied(results[n], live', n, FilledCount(swept, n)))
              && forall p :: p in live' ==> Alive(p)
    {
      hide Tallied, CountFilled, Alive, LiveIn, FilledIn, Filled;
      var o := live[i];
      var o' := Filled(o, m, ts, why);
      assert o in live;
      IsFilled(o, m, ts, why);
      AliveWhenFilled(o, m, ts, why);
      TalliedAfterFill(results[m], live, m, FilledCount(swept, m), i, o', ts, why);
      forall n: QueueModel | n != m ensures Tallied(results[n], live[i := o'], n, FilledCount(swept, n)) {
        OtherView(o, m, n, ts, why);
        TalliedElsewhere(results[n], live, n, FilledCount(swept, n), i, o');
      }
      CountsTotals(results[m], o, ts, why);
      StillAlive(live, i, o');
    }

    lemma NotFilled(o: SyntheticOrder, m: QueueModel, ts: u64, why: FillReason)
      requires !View(o.views, m).live
      ensures Filled(o, m, ts, why) == o
    {
    }

    lemma IsFilled(o: SyntheticOrder, m: QueueModel, ts: u64, why: FillReason)
      requires View(o.views, m).live
      ensures var s := View(o.views, m);
              Filled(o, m, ts, why) == Refreshed(Put(o, m,
                  s.(live := false, filled := true, reason := why, fillTs := ts)))
      ensures LiveIn(o, m)
    {
    }

    lemma OtherView(o: SyntheticOrder, m: QueueModel, n: QueueModel, ts: u64, why: FillReason)
      ensures n != m ==>
                LiveIn(Filled(o, m, ts, why), n) == LiveIn(o, n) && FilledIn(Filled(o, m, ts, why), n) == FilledIn(o, n)
      ensures SameKeys(Filled(o, m, ts, why), o)
    {
    }

    lemma CountsTotals(r: ModelResults, o: SyntheticOrder, ts: u64, why: FillReason)
      ensures CountFilled(r, o, ts, why).placed == r.placed
    {
    }

    lemma StillAlive(before: seq<SyntheticOrder>, i: nat, o: SyntheticOrder)
      requires i < |before| && (forall p :: p in before ==> Alive(p)) && Alive(o)
      ensures forall p :: p in before[i := o] ==> Alive(p)
    {
    }

    /** One order filled under every model that still has it live. */
    method FillAllLive(i: nat, ts: u64, why: FillReason)
      requires Accounts() && i < |live| && why in {ExecutionBehind, TradeThrough, NonDisplayedPrint}
      modifies `live, `results
      ensures Accounts() && live == old(live)[i := FilledFirst(old(live)[i], |MODELS|, ts, why)]
    {
      hide Accounts, Filled;
      var n := 0;
      while n < |MODELS|
        invariant n <= |MODELS| && Accounts() && |live| == |old(live)|
        invariant live == old(live)[i := FilledFirst(old(live)[i], n, ts, why)]
      {
        FillAt(i, MODELS[n], ts, why);
        n := n + 1;
      }
    }

    /** One order taken out under every model that still has it live. */
    method ExpireAt(i: nat)
      requires Accounts() && i < |live|
      modifies `live, `results
      ensures Accounts() && live == old(live)[i := ExpiredAll(old(live)[i])]
    {
      hide Totals, Alive;
      ghost var o := live[i];
      assert o in live;
      var n := 0;
      while n < |MODELS|
        invariant n <= |MODELS| && |live| == |old(live)| && Totals()
        invariant live == old(live)[i := ExpiredFirst(o, n)]
      {
        GiveUp(i, MODELS[n]);
        n := n + 1;
      }
      Close(i);
      AliveWhenExpired(o);
      StillAlive(old(live), i, live[i]);
    }

    /** One order given up under one model. */
    method GiveUp(i: nat, m: QueueModel)
      requires Totals() && i < |live|
      modifies `live, `results
      ensures Totals() && live == old(live)[i := ExpiredIn(old(live)[i], m)]
    {
      hide Tallied, LiveIn, FilledIn;
      var s := View(live[i].views, m);
      if !s.live { return; }
      var o := Put(live[i], m, s.(live := false, reason := Expired));
      GivenUp(live[i], m, s);
      TalliedAfterExpiry(results[m], live, m, FilledCount(swept, m), i, o);
      forall k: QueueModel | k != m ensures Tallied(results[k], live[i := o], k, FilledCount(swept, k)) {
        TalliedElsewhere(results[k], live, k, FilledCount(swept, k), i, o);
      }
      results := results[m := CountExpired(results[m])];
      live := live[i := o];
    }

    method Close(i: nat)
      requires Totals() && i < |live|
      modifies `live
      ensures Totals() && live == old(live)[i := old(live)[i].(anyLive := false)]
    {
      hide Tallied, LiveIn, FilledIn;
      var last := live[i].(anyLive := false);
      SameModels(live[i], last);
      forall k: QueueModel ensures Tallied(results[k], live[i := last], k, FilledCount(swept, k)) {
        TalliedElsewhere(results[k], live, k, FilledCount(swept, k), i, last);
      }
      live := live[i := last];
    }

    lemma GivenUp(o: SyntheticOrder, m: QueueModel, s: ModelState)
      requires s == View(o.views, m) && s.live
      ensures var o' := Put(o, m, s.(live := false, reason := Expired));
              && LiveIn(o, m) && !LiveIn(o', m) && FilledIn(o, m) == FilledIn(o', m) && SameKeys(o, o')
              && forall k: QueueModel :: k != m ==> LiveIn(o, k) == LiveIn(o', k) && FilledIn(o, k) == FilledIn(o', k)
    {
    }

    lemma SameModels(o: SyntheticOrder, p: SyntheticOrder)
      requires o.views == p.views
      ensures forall m: QueueModel :: LiveIn(o, m) == LiveIn(p, m) && FilledIn(o, m) == FilledIn(p, m)
    {
    }

    lemma AliveWhenExpired(o: SyntheticOrder)
      requires Alive(o)
      ensures Alive(ExpiredAll(o))
    {
      ExpiredAllViews(o);
      forall m: QueueModel ensures !LiveIn(ExpiredAll(o), m) {}
    }

    // ----- what a message does to the orders -----

    /** An execution at an order's own price, or worse on its side. */
    method ExecutionAt(i: nat, r: Resolved, qty: Shares, ts: u64)
      requires Accounts() && i < |live|
      modifies `live, `results
      ensures Accounts() && live == old(live)[i := AfterExecution(old(live)[i], r, qty, ts)]
    {
      hide Accounts, Filled, FilledFirst, Worse;
      ghost var o := live[i];
      if !live[i].anyLive || live[i].side != r.side { return; }
      if Worse(live[i], r) {
        FillAllLive(i, ts, TradeThrough);
        return;
      }
      if r.price != live[i].price { return; }
      var exact := live[i].views.exact;
      if exact.live {
        if r.ref in live[i].aheadRefs {
          SetAt(i, Exact, Lowered(exact, qty as real));
          if qty >= r.shares { DropRef(i, r.ref); }
        } else {
          FillAt(i, Exact, ts, ExecutionBehind);
        }
      }
      assert live == old(live)[i := ExactExecution(o, r, qty, ts)];
      BlindAt(i, Conservative, qty, ts);
      BlindAt(i, Optimistic, qty, ts);
      BlindAt(i, Proportional, qty, ts);
      BlindAt(i, Bernoulli, qty, ts);
      RefreshAt(i);
    }

    /** An approximation sees only the volume. */
    method BlindAt(i: nat, m: QueueModel, qty: Shares, ts: u64)
      requires Accounts() && i < |live|
      modifies `live, `results
      ensures Accounts() && live == old(live)[i := BlindExecution(old(live)[i], m, qty, ts)]
    {
      hide Accounts, Filled;
      var s := View(live[i].views, m);
      if !s.live { return; }
      if s.ahead <= 0.0 {
        FillAt(i, m, ts, ExecutionBehind);
      } else {
        SetAt(i, m, Lowered(s, qty as real));
      }
    }

    /** A model's count ahead changes; nothing it is accounted by does. */
    method SetAt(i: nat, m: QueueModel, s: ModelState)
      requires Accounts() && i < |live| && s.live == View(live[i].views, m).live
               && s.filled == View(live[i].views, m).filled
      modifies `live
      ensures Accounts() && live == old(live)[i := Put(old(live)[i], m, s)]
    {
      hide Tallied, Alive, LiveIn, FilledIn;
      var o := Put(live[i], m, s);
      assert live[i] in live;
      AliveWhenPut(live[i], m, s);
      forall n: QueueModel ensures Tallied(results[n], live[i := o], n, FilledCount(swept, n)) {
        TalliedElsewhere(results[n], live, n, FilledCount(swept, n), i, o);
      }
      live := live[i := o];
      StillAlive(old(live), i, o);
    }

    method DropRef(i: nat, r: Ref)
      requires Accounts() && i < |live|
      modifies `live
      ensures Accounts() && live == old(live)[i := old(live)[i].(aheadRefs := old(live)[i].aheadRefs - {r})]
    {
      hide Tallied;
      var o := live[i].(aheadRefs := live[i].aheadRefs - {r});
      assert live[i] in live;
      SameViews(live[i], o);
      forall n: QueueModel ensures Tallied(results[n], live[i := o], n, FilledCount(swept, n)) {
        TalliedElsewhere(results[n], live, n, FilledCount(swept, n), i, o);
      }
      live := live[i := o];
      StillAlive(old(live), i, o);
    }

    lemma SameViews(o: SyntheticOrder, p: SyntheticOrder)
      requires Alive(o) && o.views == p.views && o.anyLive == p.anyLive
      ensures Alive(p) && forall m: QueueModel :: LiveIn(o, m) == LiveIn(p, m) && FilledIn(o, m) == FilledIn(p, m)
    {
      forall m: QueueModel ensures !(LiveIn(p, m) && FilledIn(p, m)) { assert !(LiveIn(o, m) && FilledIn(o, m)); }
    }

    method RefreshAt(i: nat)
      requires Accounts() && i < |live|
      modifies `live
      ensures Accounts() && live == old(live)[i := Refreshed(old(live)[i])]
    {
      hide Tallied;
      assert live[i] in live;
      live := live[i := Refreshed(live[i])];
      assert live == old(live);
    }

    /** Every order of the executed order's symbol, found through the symbol's list. */
    method OnExecution(r: Resolved, qty: Shares, ts: u64)
      requires Accounts() && Indexed(live, byLocate)
      modifies `live, `results
      ensures Accounts() && Indexed(live, byLocate) && |live| == |old(live)|
      ensures forall j :: 0 <= j < |live| ==> live[j] == TouchedByExecution(old(live)[j], r, qty, ts)
    {
      hide Accounts, AfterExecution;
      var at := At(byLocate, r.locate);
      PositionsExact(live, r.locate);
      var n := 0;
      while n < |at|
        invariant n <= |at| && Accounts() && |live| == |old(live)|
        invariant forall j: nat :: j < |live| ==>
                    live[j] == if j in at[..n] then AfterExecution(old(live)[j], r, qty, ts) else old(live)[j]
      {
        assert at[n] in at && at[n] !in at[..n];
        ExecutionAt(at[n], r, qty, ts);
        assert at[..n + 1] == at[..n] + [at[n]];
        n := n + 1;
      }
      assert at[..n] == at;
      forall l: Locate ensures At(byLocate, l) == Positions(live, l) {
        forall j | 0 <= j < |live| ensures live[j].locate == old(live)[j].locate {
          ExecutionKeepsSymbol(old(live)[j], r, qty, ts);
        }
        PositionsFrame(old(live), live, l);
      }
    }

    lemma ExecutionKeepsSymbol(o: SyntheticOrder, r: Resolved, qty: Shares, ts: u64)
      ensures AfterExecution(o, r, qty, ts).locate == o.locate
    {
      hide AfterExecution;
      KeyKept(o, r, qty, ts);
    }

    /** A removal at the price of one order: the models differ here and nowhere else. */
    method CancelOne(o: SyntheticOrder, r: Resolved, qty: Shares, depth: nat, coin: bool) returns (o': SyntheticOrder)
      requires o.anyLive && Names(o, r)
      ensures o' == AfterCancel(o, r, qty, depth, coin)
    {
      hide Lowered, Heads, Portion;
      var v, refs := o.views, o.aheadRefs;
      if v.exact.live && r.ref in o.aheadRefs {
        v := v.(exact := Lowered(v.exact, qty as real));
        if qty >= r.shares { refs := refs - {r.ref}; }
      }
      var before := depth + qty;
      if v.opt.live { v := v.(opt := Lowered(v.opt, qty as real)); }
      if v.prop.live && before > 0 {
        v := v.(prop := Lowered(v.prop, Portion(v.prop.ahead, qty, before)));
      }
      if v.bern.live && before > 0 {
        if Heads(v.bern.ahead, before, coin) { v := v.(bern := Lowered(v.bern, qty as real)); }
      }
      o' := o.(views := v, aheadRefs := refs);
    }

    method CancelAt(i: nat, r: Resolved, qty: Shares, coin: bool)
      requires Accounts() && book.Valid() && i < |live|
      modifies `live
      ensures Accounts()
      ensures live == old(live)[i :=
              AfterCancel(old(live)[i], r, qty, Depth(book.Contents(), KeyAt(old(live)[i])), coin)]
    {
      hide Tallied, ReferenceBook.Valid, AfterCancel, NoneLive;
      var o := live[i];
      assert o in live;
      if !o.anyLive || o.locate != r.locate || o.side != r.side || o.price != r.price {
        UntouchedByCancel(o, r, qty, Depth(book.Contents(), KeyAt(o)), coin);
        return;
      }
      var depth := book.DepthAt(KeyAt(o));
      var o' := CancelOne(o, r, qty, depth, coin);
      SameLives(o, r, qty, depth, coin);
      forall n: QueueModel ensures Tallied(results[n], live[i := o'], n, FilledCount(swept, n)) {
        TalliedElsewhere(results[n], live, n, FilledCount(swept, n), i, o');
      }
      live := live[i := o'];
      StillAlive(old(live), i, o');
    }

    lemma SameLives(o: SyntheticOrder, r: Resolved, qty: Shares, depth: nat, coin: bool)
      ensures var p := AfterCancel(o, r, qty, depth, coin);
              (forall m: QueueModel :: LiveIn(o, m) == LiveIn(p, m) && FilledIn(o, m) == FilledIn(p, m))
              && (NoneLive(o) <==> NoneLive(p))
              && SameKeys(o, p) && p.anyLive == o.anyLive
    {
      hide Heads;
    }

    /** A cancel, delete or replace, offered to every order. The coins are the draws of the Bernoulli model. */
    method OnCancel(r: Resolved, qty: Shares, coins: nat -> bool)
      requires Accounts() && Indexed(live, byLocate) && book.Valid()
      modifies `live
      ensures Accounts() && Indexed(live, byLocate) && |live| == |old(live)|
      ensures forall j :: 0 <= j < |live| ==>
                live[j] == AfterCancel(old(live)[j], r, qty, Depth(book.Contents(), KeyAt(old(live)[j])), coins(j))
    {
      hide Accounts, AfterCancel, ReferenceBook.Valid, Depth;
      var i := 0;
      while i < |live|
        invariant i <= |live| == |old(live)| && Accounts()
        invariant forall j :: i <= j < |live| ==> live[j] == old(live)[j]
        invariant forall j :: 0 <= j < i ==>
                    live[j] == AfterCancel(old(live)[j], r, qty, Depth(book.Contents(), KeyAt(old(live)[j])), coins(j))
      {
        CancelAt(i, r, qty, coins(i));
        i := i + 1;
      }
      forall l: Locate ensures At(byLocate, l) == Positions(live, l) {
        forall j | 0 <= j < |live| ensures live[j].locate == old(live)[j].locate {
          CancelKeepsKey(old(live)[j], r, qty, Depth(book.Contents(), KeyAt(old(live)[j])), coins(j));
        }
        PositionsFrame(old(live), live, l);
      }
    }

    /** A print at exactly an order's price fills it in every view. */
    method OnPrint(locate: Locate, price: Price, ts: u64)
      requires Accounts() && Indexed(live, byLocate)
      modifies `live, `results
      ensures Accounts() && Indexed(live, byLocate) && |live| == |old(live)|
      ensures forall j :: 0 <= j < |live| ==>
                live[j] == if old(live)[j].locate == locate then AfterPrint(old(live)[j], price, ts) else old(live)[j]
    {
      hide Accounts, FilledFirst;
      var at := At(byLocate, locate);
      PositionsExact(live, locate);
      var n := 0;
      while n < |at|
        invariant n <= |at| && Accounts() && |live| == |old(live)|
        invariant forall j: nat :: j < |live| ==>
                    live[j] == if j in at[..n] then AfterPrint(old(live)[j], price, ts) else old(live)[j]
      {
        assert at[n] in at && at[n] !in at[..n];
        if live[at[n]].anyLive && live[at[n]].price == price { FillAllLive(at[n], ts, NonDisplayedPrint); }
        assert at[..n + 1] == at[..n] + [at[n]];
        n := n + 1;
      }
      assert at[..n] == at;
      forall l: Locate ensures At(byLocate, l) == Positions(live, l) {
        forall j | 0 <= j < |live| ensures live[j].locate == old(live)[j].locate {
          PrintKeepsSymbol(old(live)[j], price, ts);
        }
        PositionsFrame(old(live), live, l);
      }
    }

    lemma PrintKeepsSymbol(o: SyntheticOrder, price: Price, ts: u64)
      ensures AfterPrint(o, price, ts).locate == o.locate
    {
      hide FilledFirst;
      FilledAllViews(o, ts, NonDisplayedPrint);
    }

    // ----- placing and retiring -----

    /** One order at the inside of a symbol, behind everything resting there. */
    method PlaceAt(locate: Locate, side: u8, ts: u64)
      requires Valid()
      modifies `live, `byLocate, `results, `placements, `skipped
      ensures Valid() && live == Joined(book.Contents(), old(live), locate, side, ts)
      ensures skipped == old(skipped) + if TwoSided(book.Contents(), locate) then 0 else 1
      ensures placements == old(placements) + if TwoSided(book.Contents(), locate) then 1 else 0
    {
      hide ReferenceBook.Valid, Accounts, Indexed, BookSpec.Best, Entrant;
      var bid := book.BestOf(locate, true);
      var ask := book.BestOf(locate, false);
      if bid.None? || ask.None? {
        skipped := skipped + 1;
        return;
      }
      var k := Key(locate, side == BUY, if side == BUY then bid.value else ask.value);
      var lv := book.Level(k);
      BestIsThere(book.Contents(), locate, side == BUY);
      assert lv.present; // so the second check for an absent level never skips
      var s := AtEntry(lv.shares);
      var o := SyntheticOrder(locate, side, k.price, ts, lv.shares, Views(s, s, s, s, s), set r | r in lv.fifo, true);
      SnapshotQueue(k, lv, o);
      Enter(o);
    }

    /** A new order is counted as placed under every model. */
    method Enter(o: SyntheticOrder)
      requires Valid() && o == Entrant(book.Contents(), o.locate, o.side, o.price, o.entered)
      modifies `live, `byLocate, `results, `placements
      ensures Valid() && live == old(live) + [o] && placements == old(placements) + 1
    {
      hide ReferenceBook.Valid, Tallied, Depth, CountPlaced, Alive, LiveIn, FilledIn, Positions;
      ghost var s := AtEntry(o.depth);
      LiveAtEntry(o, s);
      JoinAlive(live, o);
      forall m: QueueModel ensures Tallied(CountPlaced(results[m], o), live + [o], m, FilledCount(swept, m)) {
        TalliedAfterPlacing(results[m], live, m, FilledCount(swept, m), o);
      }
      Counted(o);
      results := map m | m in results :: CountPlaced(results[m], o);
      placements := placements + 1;
      forall l: Locate
        ensures Positions(live + [o], l) ==
                  if o.locate == l then Positions(live, l) + [|live|] else Positions(live, l) {
        PositionsAppend(live, o, l);
      }
      byLocate := byLocate[o.locate := At(byLocate, o.locate) + [|live|]];
      live := live + [o];
    }

    lemma BestIsThere(b: Book, locate: Locate, buy: bool)
      requires Best(b, locate, buy).Some?
      ensures Key(locate, buy, Best(b, locate, buy).value) in b.queues
    {
    }

    lemma SnapshotQueue(k: Key, lv: Snapshot, o: SyntheticOrder)
      requires lv == SnapshotOf(book.Contents(), k) && lv.present && KeyAt(o) == k
      requires var s := AtEntry(lv.shares);
               o == SyntheticOrder(o.locate, o.side, o.price, o.entered, lv.shares, Views(s, s, s, s, s),
                 set r | r in lv.fifo, true)
      ensures o == Entrant(book.Contents(), o.locate, o.side, o.price, o.entered)
    {
    }

    lemma LiveAtEntry(o: SyntheticOrder, s: ModelState)
      requires s.live && !s.filled && o.views == Views(s, s, s, s, s)
      ensures (forall m: QueueModel :: LiveIn(o, m) && !FilledIn(o, m)) && !NoneLive(o) && (o.anyLive ==> Alive(o))
    {
    }

    lemma Counted(o: SyntheticOrder)
      ensures forall r: ModelResults :: CountPlaced(r, o).placed == r.placed + 1
    {
    }

    /** Drops the orders no model has live, and lists the rest anew. */
    method Compact()
      requires book.Valid() && Accounts()
      modifies `live, `byLocate, `swept
      ensures Valid() && live == Kept(old(live)) && swept == old(swept) + Dropped(old(live))
    {
      hide ReferenceBook.Valid, Tallied, Indexed, Alive, FilledCount;
      var keep, i := [], 0;
      while i < |live|
        invariant i <= |live| && keep == Kept(live[..i])
      {
        assert live[..i + 1][..i] == live[..i];
        if live[i].anyLive { keep := keep + [live[i]]; }
        i := i + 1;
      }
      assert live[..i] == live;
      DeadAreOver(live);
      forall m: QueueModel ensures Tallied(results[m], keep, m, FilledCount(swept + Dropped(live), m)) {
        TalliedAfterSweep(results[m], live, m, FilledCount(swept, m));
        FilledCountConcat(swept, Dropped(live), m);
      }
      KeptMembers(live);
      swept := swept + Dropped(live);
      live := keep;
      Reindex();
    }

    method Reindex()
      modifies `byLocate
      ensures Indexed(live, byLocate)
    {
      byLocate := map[];
      var i := 0;
      while i < |live|
        invariant i <= |live| && forall l :: At(byLocate, l) == Positions(live[..i], l)
      {
        assert live[..i + 1][..i] == live[..i];
        byLocate := byLocate[live[i].locate := At(byLocate, live[i].locate) + [i]];
        i := i + 1;
      }
      assert live[..i] == live;
    }

    /** Every order still live on a symbol is taken out. */
    method CancelSymbol(locate: Locate)
      requires Valid()
      modifies `live, `byLocate, `results, `swept
      ensures Valid() && Now() == Next(Rules(), old(Now()), Withdrawn(locate))
      ensures live == Staying(old(live), Elsewhere(locate))
    {
      hide ReferenceBook.Valid, Accounts, ExpiredAll, Kept, Dropped, Staying;
      var at := At(byLocate, locate);
      PositionsExact(live, locate);
      var n := 0;
      while n < |at|
        modifies `live, `results
        invariant n <= |at| && Accounts() && |live| == |old(live)|
        invariant forall j: nat :: j < |live| ==>
                    live[j] == if j in at[..n] && old(live)[j].anyLive then ExpiredAll(old(live)[j]) else old(live)[j]
      {
        assert at[n] in at && at[n] !in at[..n];
        if live[at[n]].anyLive { ExpireAt(at[n]); }
        assert at[..n + 1] == at[..n] + [at[n]];
        n := n + 1;
      }
      assert at[..n] == at;
      assert live == Marked(old(live), Elsewhere(locate));
      KeptStay(old(live), live, Elsewhere(locate));
      Compact();
    }

    /** The clock: old orders are swept out on a coarse interval, then the timer's placements happen. Times never go
        back. */
    method Tick(ts: u64, placing: seq<(Locate, u8)>)
      requires Valid()
      modifies `live, `byLocate, `results, `placements, `skipped, `swept, `lastTs, `lastSweep
      ensures Valid() && Now() == Ticked(Rules(), old(Now()), ts, placing)
    {
      hide ReferenceBook.Valid, Accounts, Indexed, Joined, Compacted;
      if ts < lastTs { return; }
      lastTs := ts;
      if Since(ts, lastSweep) >= SWEEP {
        lastSweep := ts;
        Sweep(ts);
      }
      if !timer { return; }
      ghost var held := live;
      var i := 0;
      while i < |placing|
        modifies `live, `byLocate, `results, `placements, `skipped
        invariant i <= |placing| && Valid()
        invariant live == JoinedAll(book.Contents(), held, placing[..i], ts)
      {
        assert placing[..i + 1][..i] == placing[..i];
        PlaceAt(placing[i].0, placing[i].1, ts);
        i := i + 1;
      }
      assert placing[..i] == placing;
    }

    method Sweep(ts: u64)
      requires Valid()
      modifies `live, `byLocate, `results, `swept
      ensures Valid() && Now() == Compacted(old(Now()), Young(ts, maxLife))
      ensures live == Staying(old(live), Young(ts, maxLife))
    {
      hide ReferenceBook.Valid, Accounts, ExpiredAll;
      var i := 0;
      while i < |live|
        modifies `live, `results
        invariant i <= |live| == |old(live)| && Accounts()
        invariant forall j: nat :: i <= j < |live| ==> live[j] == old(live)[j]
        invariant forall j: nat :: j < i ==>
                    live[j] == if old(live)[j].anyLive && !Young(ts, maxLife)(old(live)[j])
                      then ExpiredAll(old(live)[j]) else old(live)[j]
      {
        if live[i].anyLive && Since(ts, live[i].entered) >= maxLife { ExpireAt(i); }
        i := i + 1;
      }
      assert live == Marked(old(live), Young(ts, maxLife));
      KeptStay(old(live), live, Young(ts, maxLife));
      Compact();
    }

    /** The end of a session: nothing is live, and everything placed has filled or expired, the same number under every
        model. The symbols' lists are left as they were, so nothing may follow. */
    method Finish()
      requires Accounts()
      modifies `live, `results, `swept
      ensures live == [] && placements == old(placements) && swept == old(swept) + Marked(old(live), Nowhere())
      ensures forall m: QueueModel :: m in results && results[m].placed == placements
                && placements == results[m].filled + results[m].reasons[Expired]
                  && results[m].filled == FilledCount(swept, m)
    {
      hide ExpiredAll, Tallied;
      var i := 0;
      while i < |live|
        modifies `live, `results
        invariant i <= |live| == |old(live)| && Accounts()
        invariant forall j: nat :: i <= j < |live| ==> live[j] == old(live)[j]
        invariant forall j: nat ::
                    j < i ==> live[j] == if old(live)[j].anyLive then ExpiredAll(old(live)[j]) else old(live)[j]
      {
        if live[i].anyLive { ExpireAt(i); }
        i := i + 1;
      }
      assert live == Marked(old(live), Nowhere());
      NowhereStays(old(live));
      forall o | o in live ensures NoneLive(o) {}
      forall m: QueueModel
        ensures results[m].placed == results[m].filled + results[m].reasons[Expired]
        ensures results[m].filled == FilledCount(swept + live, m)
      {
        AllSettled(results[m], live, m, FilledCount(swept, m));
        TotalFills(m);
        FilledCountConcat(swept, live, m);
      }
      swept := swept + live;
      live := [];
    }

    lemma NowhereStays(orders: seq<SyntheticOrder>)
      ensures forall o :: o in Marked(orders, Nowhere()) ==> !o.anyLive
    {
      forall o | o in Marked(orders, Nowhere()) ensures !o.anyLive {
        var j :| 0 <= j < |orders| && Marked(orders, Nowhere())[j] == o;
        ExpiredAllViews(orders[j]);
      }
    }

    static function Nowhere(): SyntheticOrder -> bool { (o: SyntheticOrder) => false }

    lemma TotalFills(m: QueueModel)
      requires Totals()
      ensures results[m].filled == FilledCount(swept, m) + FilledCount(live, m)
    {
    }

    // ----- messages -----

    /** The live order a reference names. */
    method Lookup(r: Ref) returns (found: Option<Resolved>)
      ensures found == if r in book.Contents().orders then Some(Resolve(book.Contents(), r)) else None
    {
      if r !in book.orders { return None; }
      var o := book.orders[r];
      found := Some(Resolved(r, o.locate, o.side, o.price, o.shares));
    }

    /** Every order has heard a message; the book has taken its step if it is one for the book. */
    twostate predicate Passed(m: Message, ts: u64, coins: nat -> bool)
      reads this, book
    {
      && book.Abs() == BookAfter(old(book.Abs()), m)
      && live == Hears(old(book.Contents()), book.Contents(), m, ts, old(live), coins, printsFill)
    }

    /** A live order is resolved before the book applies the message, for afterwards it may be gone. */
    method OnExecuted(m: Message, ts: u64, ghost coins: nat -> bool)
      requires Valid() && IsExecution(m)
      modifies book, `live, `results
      ensures Valid() && Passed(m, ts, coins)
    {
      hide ReferenceBook.Valid, Accounts, Indexed, Step, TouchedByExecution;
      var r := Lookup(m.ref);
      book.On(m, ts);
      if r.Some? { OnExecution(r.value, m.qty, ts); }
      HeardAll(old(book.Contents()), book.Contents(), m, ts, old(live), coins, printsFill, live);
    }

    /** A cancel, delete or replace of a live order is a removal of what it takes. */
    method OnRemoved(m: Message, ts: u64, coins: nat -> bool)
      requires Valid() && (m.Reduce? || m.Delete? || m.Replace?) && !IsExecution(m)
      modifies book, `live
      ensures Valid() && Passed(m, ts, coins)
    {
      hide ReferenceBook.Valid, Accounts, Indexed, Step, AfterCancel, Depth;
      var r := Lookup(match m case Reduce(_, _, r, _) => r case Delete(_, r) => r case Replace(_, r, _, _, _) => r);
      book.On(m, ts);
      if r.Some? { OnCancel(r.value, if m.Reduce? then m.qty else r.value.shares, coins); }
      HeardAll(old(book.Contents()), book.Contents(), m, ts, old(live), coins, printsFill, live);
    }

    /** A message that takes nothing from a live order goes to the book alone. */
    method OnOther(m: Message, ts: u64, ghost coins: nat -> bool)
      requires Valid() && (m.SystemEvent? || m.StockDirectory? || m.Add?)
      modifies book
      ensures Valid() && Passed(m, ts, coins)
    {
      hide ReferenceBook.Valid, Accounts, Indexed, Step;
      book.On(m, ts);
      HeardAll(old(book.Contents()), book.Contents(), m, ts, old(live), coins, printsFill, live);
    }

    /** A non-displayed print: a modelling choice, on or off. */
    method OnTrade(m: Message, ts: u64, ghost coins: nat -> bool)
      requires Valid() && m.Trade?
      modifies `live, `results
      ensures Valid() && Passed(m, ts, coins)
    {
      hide ReferenceBook.Valid, Accounts, Indexed, AfterPrint;
      if printsFill { OnPrint(m.locate, m.price, ts); }
      HeardAll(old(book.Contents()), book.Contents(), m, ts, old(live), coins, printsFill, live);
    }

    /** One message, then the clock. */
    method On(m: Message, ts: u64, coins: nat -> bool, placing: seq<(Locate, u8)>)
      requires Valid()
      modifies this, book
      ensures Valid() && Now() == Next(Rules(), old(Now()), Heard(m, ts, coins, placing))
    {
      hide Valid, ReferenceBook.Valid, Step, Hears, Ticked;
      match m
      case SystemEvent(_) => OnOther(m, ts, coins);
      case StockDirectory(_) => OnOther(m, ts, coins);
      case TradingAction(_, _) => NothingHeard(m, ts, coins);
      case OperationalHalt(_, _, _) => NothingHeard(m, ts, coins);
      case Add(_, _, _, _, _) =>
        OnOther(m, ts, coins);
        Tick(ts, placing);
      case Reduce(kind, _, _, _) =>
        if kind == Cancelled { OnRemoved(m, ts, coins); } else { OnExecuted(m, ts, coins); }
        Tick(ts, placing);
      case Delete(_, _) =>
        OnRemoved(m, ts, coins);
        Tick(ts, placing);
      case Replace(_, _, _, _, _) =>
        OnRemoved(m, ts, coins);
        Tick(ts, placing);
      case Trade(_, _) =>
        OnTrade(m, ts, coins);
        Tick(ts, placing);
      case CrossTrade(_, _) =>
        NothingHeard(m, ts, coins);
        Tick(ts, placing);
      case BrokenTrade(_) =>
        NothingHeard(m, ts, coins);
        Tick(ts, placing);
    }

    lemma NothingHeard(m: Message, ts: u64, coins: nat -> bool)
      requires m.TradingAction? || m.OperationalHalt? || m.CrossTrade? || m.BrokenTrade?
      ensures Hears(book.Contents(), book.Contents(), m, ts, live, coins, printsFill) == live
              && BookAfter(book.Abs(), m) == book.Abs()
    {
      HeardAll(book.Contents(), book.Contents(), m, ts, live, coins, printsFill, live);
    }

    // ----- whole streams -----

    /** The three ways in. */
    method Act(a: Action)
      requires Valid()
      modifies this, book
      ensures Valid() && Now() == Next(Rules(), old(Now()), a)
    {
      hide Valid, ReferenceBook.Valid, Compacted, Joined, Ticked, Hears, BookAfter;
      match a
      case Heard(m, ts, coins, placing) => On(m, ts, coins, placing);
      case Directed(locate, side, ts) => PlaceAt(locate, side, ts);
      case Withdrawn(locate) => CancelSymbol(locate);
    }

    /** A fresh simulator through a whole stream is in the state the stream gives, and its totals are those of every
        order of the stream: what holds of those holds of it. */
    static method Run(st: Settings, run: seq<Action>) returns (q: QueueSimulator)
      ensures fresh(q) && q.Valid() && q.Rules() == st && q.Now() == Streamed(st, run)
      ensures forall m: QueueModel ::
                m in q.results && q.results[m].filled == FilledCount(Everything(Streamed(st, run)), m)
      ensures forall m: QueueModel :: q.results[m].placed == q.placements
      ensures q.results[Conservative].filled <= q.results[Bernoulli].filled <= q.results[Optimistic].filled
      ensures q.results[Conservative].filled <= q.results[Proportional].filled
      ensures OrderlyRun(st, run) ==>
                && q.results[Proportional].filled <= q.results[Optimistic].filled
                && (PlainRun(st, run) ==> q.results[Conservative].filled <= q.results[Exact].filled)
    {
      hide QueueSimulator.Valid, Next, OrderlyRun, PlainRun;
      q := new QueueSimulator(st.maxLife, st.printsFill, st.timer);
      var n := 0;
      assert run[..0] == [];
      while n < |run|
        invariant n <= |run| && fresh(q) && fresh(q.book) && q.Valid() && q.Rules() == st
                  && q.Now() == Streamed(st, run[..n])
      {
        StreamedOneMore(st, run, n);
        q.Act(run[n]);
        n := n + 1;
      }
      assert run[..n] == run;
      forall m: QueueModel
        ensures m in q.results && q.results[m].placed == q.placements
        ensures q.results[m].filled == FilledCount(Everything(Streamed(st, run)), m)
      {
        q.CountsEverything(m);
      }
      FillsRank(st, run);
    }

    /** A model's fills are those of every order ever placed. */
    lemma CountsEverything(m: QueueModel)
      requires Valid()
      ensures m in results && results[m].filled == FilledCount(Everything(Now()), m) && results[m].placed == placements
    {
      hide ReferenceBook.Valid, Tallied, FilledCount, Indexed;
      TotalFills(m);
      FilledCountConcat(swept, live, m);
    }

    // ----- what every reachable state shows -----

    /** Under each model everything placed has filled, expired or is still live, and the breakdowns add up to the totals
        without any bucket filling more than was placed in it. */
    lemma AccountsBalance(m: QueueModel)
      requires Valid()
      ensures var r := results[m];
              && r.placed == r.filled + r.reasons[Expired] + |LiveKeys(live, m, SymbolKey)| == placements
              && |r.reasons| == r.filled + r.reasons[Expired] && |r.timeToFill| == r.filled
              && |r.bySymbol.placed| == |r.byDepth.placed| == |r.byAhead.placed| == |r.bySymbolAhead.placed| == r.placed
              && |r.bySymbol.filled| == |r.byDepth.filled| == |r.byAhead.filled| == |r.bySymbolAhead.filled| == r.filled
              && r.bySymbol.filled <= r.bySymbol.placed && r.byDepth.filled <= r.byDepth.placed
              && r.byAhead.filled <= r.byAhead.placed && r.bySymbolAhead.filled <= r.bySymbolAhead.placed
    {
      hide ReferenceBook.Valid, LiveKeys;
      assert Tallied(results[m], live, m, FilledCount(swept, m));
    }

    /** A symbol's list holds each position of its orders once, and no other position. */
    lemma ListsAreExact(l: Locate)
      requires Valid()
      ensures Distinct(At(byLocate, l))
      ensures forall i: nat :: i in At(byLocate, l) <==> i < |live| && live[i].locate == l
    {
      hide ReferenceBook.Valid;
      PositionsExact(live, l);
    }
  }
}
