/** Five views of one synthetic order's place in its queue, and what they can be relied on to say about each other. */
module QueueModels {
  import opened BookTypes

  datatype QueueModel = Exact | Conservative | Optimistic | Proportional | Bernoulli

  const MODELS := [Exact, Conservative, Optimistic, Proportional, Bernoulli]

  datatype FillReason = NotYet | ExecutionBehind | TradeThrough | NonDisplayedPrint | Expired | LevelGone

  /** One model's view. The count ahead is fractional: the proportional model removes fractions. */
  datatype ModelState = ModelState(ahead: real, live: bool, filled: bool, reason: FillReason, fillTs: u64)

  datatype Views = Views(exact: ModelState, cons: ModelState, opt: ModelState, prop: ModelState, bern: ModelState)

  /** A non-impacting order at the inside. aheadRefs are the references resting ahead at entry and not seen leaving. */
  datatype SyntheticOrder = SyntheticOrder(locate: Locate, side: u8, price: Price, entered: u64, depth: nat,
                                           views: Views, aheadRefs: set<Ref>, anyLive: bool)

  /** The real order a message names, as it stood before the message. */
  datatype Resolved = Resolved(ref: Ref, locate: Locate, side: u8, price: Price, shares: Shares)

  function View(v: Views, m: QueueModel): ModelState {
    match m
    case Exact => v.exact
    case Conservative => v.cons
    case Optimistic => v.opt
    case Proportional => v.prop
    case Bernoulli => v.bern
  }

  function SetView(v: Views, m: QueueModel, s: ModelState): Views {
    match m
    case Exact => v.(exact := s)
    case Conservative => v.(cons := s)
    case Optimistic => v.(opt := s)
    case Proportional => v.(prop := s)
    case Bernoulli => v.(bern := s)
  }

  function LiveIn(o: SyntheticOrder, m: QueueModel): bool { View(o.views, m).live }

  predicate NoneLive(o: SyntheticOrder) {
    !o.views.exact.live && !o.views.cons.live && !o.views.opt.live && !o.views.prop.live && !o.views.bern.live
  }

  function Refreshed(o: SyntheticOrder): SyntheticOrder { if NoneLive(o) then o.(anyLive := false) else o }

  function Lowered(s: ModelState, x: real): ModelState { s.(ahead := if s.ahead - x < 0.0 then 0.0 else s.ahead - x) }

  function Put(o: SyntheticOrder, m: QueueModel, s: ModelState): SyntheticOrder { o.(views := SetView(o.views, m, s)) }

  // ----- what one event does to one order -----

  function Filled(o: SyntheticOrder, m: QueueModel, ts: u64, why: FillReason): SyntheticOrder {
    var s := View(o.views, m);
    if !s.live then o else Refreshed(Put(o, m, s.(live := false, filled := true, reason := why, fillTs := ts)))
  }

  /** The first n models filled, where they are live. */
  function FilledFirst(o: SyntheticOrder, n: nat, ts: u64, why: FillReason): SyntheticOrder
    requires n <= |MODELS|
  {
    if n == 0 then o else Filled(FilledFirst(o, n - 1, ts, why), MODELS[n - 1], ts, why)
  }

  function ExpiredIn(o: SyntheticOrder, m: QueueModel): SyntheticOrder {
    var s := View(o.views, m);
    if s.live then Put(o, m, s.(live := false, reason := Expired)) else o
  }

  function ExpiredFirst(o: SyntheticOrder, n: nat): SyntheticOrder
    requires n <= |MODELS|
  {
    if n == 0 then o else ExpiredIn(ExpiredFirst(o, n - 1), MODELS[n - 1])
  }

  function ExpiredAll(o: SyntheticOrder): SyntheticOrder { ExpiredFirst(o, |MODELS|).(anyLive := false) }

  /** The exact model: the executed reference is either ahead or behind, and that settles it. */
  function ExactExecution(o: SyntheticOrder, r: Resolved, qty: Shares, ts: u64): SyntheticOrder {
    if !o.views.exact.live then o
    else if r.ref in o.aheadRefs then
      var o1 := Put(o, Exact, Lowered(o.views.exact, qty as real));
      if qty >= r.shares then o1.(aheadRefs := o.aheadRefs - {r.ref}) else o1
    else Filled(o, Exact, ts, ExecutionBehind)
  }

  /** An approximation sees only volume at the price: it deducts, or fills once it believes nothing is ahead. */
  function BlindExecution(o: SyntheticOrder, m: QueueModel, qty: Shares, ts: u64): SyntheticOrder {
    var s := View(o.views, m);
    if !s.live then o
    else if s.ahead <= 0.0 then Filled(o, m, ts, ExecutionBehind)
    else Put(o, m, Lowered(s, qty as real))
  }

  /** A worse price on the order's own side: the aggressor walked through its level. */
  predicate Worse(o: SyntheticOrder, r: Resolved) { if o.side == BUY then r.price < o.price else r.price > o.price }

  function AfterExecution(o: SyntheticOrder, r: Resolved, qty: Shares, ts: u64): SyntheticOrder {
    if !o.anyLive || o.side != r.side then o
    else if Worse(o, r) then FilledFirst(o, |MODELS|, ts, TradeThrough)
    else if r.price != o.price then o
    else
      var o1 := ExactExecution(o, r, qty, ts);
      var o2 := BlindExecution(o1, Conservative, qty, ts);
      var o3 := BlindExecution(o2, Optimistic, qty, ts);
      var o4 := BlindExecution(o3, Proportional, qty, ts);
      Refreshed(BlindExecution(o4, Bernoulli, qty, ts))
  }

  predicate Names(o: SyntheticOrder, r: Resolved) { o.locate == r.locate && o.side == r.side && o.price == r.price }

  /** The draw behind the coin: certain rates are not drawn. */
  predicate Heads(ahead: real, before: nat, coin: bool) {
    var num := if ahead < 0.0 then 0 else ahead.Floor;
    if before == 0 || num == 0 then false else if num >= before then true else coin
  }

  /** The part of a removal taken to come from ahead, when a level of that size is drawn from uniformly. */
  function Portion(ahead: real, qty: nat, before: nat): real
    requires before > 0
  {
    qty as real * (ahead / before as real)
  }

  /** A removal at the price is the one event the models treat differently. `after` is the level's depth once the book
      has applied the message. */
  function AfterCancel(o: SyntheticOrder, r: Resolved, qty: Shares, after: nat, coin: bool): SyntheticOrder {
    if !o.anyLive || !Names(o, r) then o
    else
      var wasAhead, before, v := r.ref in o.aheadRefs, after + qty, o.views;
      var exact := if v.exact.live && wasAhead then Lowered(v.exact, qty as real) else v.exact;
      var refs := if v.exact.live && wasAhead && qty >= r.shares then o.aheadRefs - {r.ref} else o.aheadRefs;
      var opt := if v.opt.live then Lowered(v.opt, qty as real) else v.opt;
      var prop := if v.prop.live && before > 0 then Lowered(v.prop, Portion(v.prop.ahead, qty, before)) else v.prop;
      var bern := if v.bern.live && before > 0 && Heads(v.bern.ahead, before, coin) then Lowered(v.bern, qty as real)
          else v.bern;
      o.(views := Views(exact, v.cons, opt, prop, bern), aheadRefs := refs)
  }

  /** A print at exactly the order's price, when the rule for it is on. */
  function AfterPrint(o: SyntheticOrder, price: Price, ts: u64): SyntheticOrder {
    if !o.anyLive || o.price != price then o else FilledFirst(o, |MODELS|, ts, NonDisplayedPrint)
  }

  function AtEntry(ahead: nat): ModelState { ModelState(ahead as real, true, false, NotYet, 0) }

  // ----- the order among the models -----

  /** The latest time of any message so far, and whether none has been earlier than one before it. */
  datatype Clock = Clock(latest: u64, forward: bool)

  const START := Clock(0, true)

  function Later(c: Clock, ts: u64): Clock {
    Clock(if ts >= c.latest then ts else c.latest, c.forward && c.latest <= ts)
  }

  /** a is never behind b: it stays at least as near the front, it has filled when b has, and, unless times have gone
      back, no later. */
  predicate Leads(a: ModelState, b: ModelState, c: Clock) {
    && (a.live ==> b.live && a.ahead <= b.ahead)
    && (b.live ==> a.live || a.filled)
    && (b.filled ==> a.filled && (c.forward ==> a.fillTs <= b.fillTs))
  }

  /** Bernoulli lies between optimistic and conservative, and proportional is no worse than conservative. */
  predicate Bracketed(v: Views, c: Clock) {
    Leads(v.opt, v.bern, c) && Leads(v.bern, v.cons, c) && Leads(v.prop, v.cons, c)
  }

  /** Between optimistic and conservative lie both versions of proportional. */
  predicate Dominated(v: Views, c: Clock) { Bracketed(v, c) && Leads(v.opt, v.prop, c) }

  predicate SaneState(s: ModelState, c: Clock) {
    0.0 <= s.ahead && !(s.live && s.filled) && (s.filled && c.forward ==> s.fillTs <= c.latest)
  }

  predicate SaneViews(v: Views, c: Clock) {
    SaneState(v.exact, c) && SaneState(v.cons, c) && SaneState(v.opt, c) && SaneState(v.prop, c) && SaneState(v.bern, c)
  }

  predicate Sane(o: SyntheticOrder, c: Clock) { SaneViews(o.views, c) && (NoneLive(o) <==> !o.anyLive) }

  lemma BracketedLater(v: Views, c: Clock, ts: u64)
    requires Bracketed(v, c) && SaneViews(v, c)
    ensures Bracketed(v, Later(c, ts)) && SaneViews(v, Later(c, ts))
    ensures Dominated(v, c) ==> Dominated(v, Later(c, ts))
  {
  }

  /** Proportional never believes more is ahead than the level holds. */
  predicate WithinDepth(o: SyntheticOrder, depth: nat) { o.views.prop.live ==> o.views.prop.ahead <= depth as real }

  function FilledState(s: ModelState, ts: u64, why: FillReason): ModelState {
    if s.live then s.(live := false, filled := true, reason := why, fillTs := ts) else s
  }

  /** Filling one model touches its view alone; the order is over when no model is live. */
  lemma FilledView(o: SyntheticOrder, m: QueueModel, ts: u64, why: FillReason)
    ensures var o' := Filled(o, m, ts, why);
            && o'.views == SetView(o.views, m, FilledState(View(o.views, m), ts, why))
            && o' == o.(views := o'.views, anyLive := o'.anyLive)
            && (o'.anyLive <==> o.anyLive && (NoneLive(o') ==> NoneLive(o)))
  {
  }

  lemma FilledAllViews(o: SyntheticOrder, ts: u64, why: FillReason)
    ensures var o', v := FilledFirst(o, |MODELS|, ts, why), o.views;
            && o' == o.(views := o'.views, anyLive := o'.anyLive)
            && o'.views == Views(FilledState(v.exact, ts, why), FilledState(v.cons, ts, why),
              FilledState(v.opt, ts, why),
                                 FilledState(v.prop, ts, why), FilledState(v.bern, ts, why))
            && NoneLive(o') && (o'.anyLive ==> o.anyLive && NoneLive(o))
  {
    hide Filled, FilledFirst, FilledState, NoneLive;
    var v := o.views;
    FilledStep(o, 0, ts, why);
    FilledStep(o, 1, ts, why);
    FilledStep(o, 2, ts, why);
    FilledStep(o, 3, ts, why);
    FilledStep(o, 4, ts, why);
    AllOver(FilledFirst(o, 5, ts, why), v, ts, why);
  }

  lemma AllOver(o: SyntheticOrder, v: Views, ts: u64, why: FillReason)
    requires o.views == Views(FilledState(v.exact, ts, why), FilledState(v.cons, ts, why), FilledState(v.opt, ts, why),
                              FilledState(v.prop, ts, why), FilledState(v.bern, ts, why))
    ensures NoneLive(o)
  {
  }

  lemma FilledStep(o: SyntheticOrder, n: nat, ts: u64, why: FillReason)
    requires n < |MODELS|
    ensures var o1, o2 := FilledFirst(o, n, ts, why), FilledFirst(o, n + 1, ts, why);
            && o2.views == SetView(o1.views, MODELS[n], FilledState(View(o1.views, MODELS[n]), ts, why))
            && o2 == o1.(views := o2.views, anyLive := o2.anyLive)
            && (o2.anyLive <==> o1.anyLive && (NoneLive(o2) ==> NoneLive(o1)))
            && (n == 0 ==> o1 == o)
  {
    hide Filled;
    FilledView(FilledFirst(o, n, ts, why), MODELS[n], ts, why);
  }

  function ExpiredState(s: ModelState): ModelState { if s.live then s.(live := false, reason := Expired) else s }

  lemma ExpiredAllViews(o: SyntheticOrder)
    ensures var v := o.views;
            ExpiredAll(o) == o.(anyLive := false, views := Views(ExpiredState(v.exact), ExpiredState(v.cons),
                                ExpiredState(v.opt), ExpiredState(v.prop), ExpiredState(v.bern)))
  {
    hide ExpiredIn;
    ExpiredStep(o, 0);
    ExpiredStep(o, 1);
    ExpiredStep(o, 2);
    ExpiredStep(o, 3);
    ExpiredStep(o, 4);
  }

  lemma ExpiredStep(o: SyntheticOrder, n: nat)
    requires n < |MODELS|
    ensures var o1, o2 := ExpiredFirst(o, n), ExpiredFirst(o, n + 1);
            && o2 == o1.(views := SetView(o1.views, MODELS[n], ExpiredState(View(o1.views, MODELS[n]))))
            && (n == 0 ==> o1 == o)
  {
  }

  /** What an execution at the order's own price does to an approximation. */
  function Deducted(s: ModelState, qty: Shares, ts: u64): ModelState {
    if !s.live then s else if s.ahead <= 0.0 then FilledState(s, ts, ExecutionBehind) else Lowered(s, qty as real)
  }

  function ExactState(o: SyntheticOrder, r: Resolved, qty: Shares, ts: u64): ModelState {
    var s := o.views.exact;
    if !s.live then s
    else if r.ref in o.aheadRefs then Lowered(s, qty as real) else FilledState(s, ts, ExecutionBehind)
  }

  lemma BlindView(o: SyntheticOrder, m: QueueModel, qty: Shares, ts: u64)
    ensures var o' := BlindExecution(o, m, qty, ts);
            && o'.views == SetView(o.views, m, Deducted(View(o.views, m), qty, ts))
            && o' == o.(views := o'.views, anyLive := o'.anyLive)
            && (o'.anyLive ==> o.anyLive) && (o.anyLive && !NoneLive(o') ==> o'.anyLive)
  {
  }

  lemma ExactView(o: SyntheticOrder, r: Resolved, qty: Shares, ts: u64)
    ensures var o' := ExactExecution(o, r, qty, ts);
            && o'.views == o.views.(exact := ExactState(o, r, qty, ts))
            && o' == o.(views := o'.views, aheadRefs := o'.aheadRefs, anyLive := o'.anyLive)
            && (o'.anyLive ==> o.anyLive) && (o.anyLive && !NoneLive(o') ==> o'.anyLive)
            && o'.aheadRefs == (if o.views.exact.live && r.ref in o.aheadRefs && qty >= r.shares
              then o.aheadRefs - {r.ref}
                                else o.aheadRefs)
  {
  }

  lemma ExecutionViews(o: SyntheticOrder, r: Resolved, qty: Shares, ts: u64)
    requires o.anyLive && o.side == r.side && o.price == r.price
    ensures var o', v := AfterExecution(o, r, qty, ts), o.views;
            && o'.views == Views(ExactState(o, r, qty, ts), Deducted(v.cons, qty, ts), Deducted(v.opt, qty, ts),
                                 Deducted(v.prop, qty, ts), Deducted(v.bern, qty, ts))
            && o' == o.(views := o'.views, aheadRefs := o'.aheadRefs, anyLive := !NoneLive(o'))
            && o'.aheadRefs == (if v.exact.live && r.ref in o.aheadRefs && qty >= r.shares then o.aheadRefs - {r.ref}
                                else o.aheadRefs)
  {
    hide ExactExecution, BlindExecution, Deducted, ExactState;
    var o1 := ExactExecution(o, r, qty, ts);
    var o2 := BlindExecution(o1, Conservative, qty, ts);
    var o3 := BlindExecution(o2, Optimistic, qty, ts);
    var o4 := BlindExecution(o3, Proportional, qty, ts);
    ExactView(o, r, qty, ts);
    BlindView(o1, Conservative, qty, ts);
    BlindView(o2, Optimistic, qty, ts);
    BlindView(o3, Proportional, qty, ts);
    BlindView(o4, Bernoulli, qty, ts);
    StillLive(o1, Conservative, qty, ts);
    StillLive(o2, Optimistic, qty, ts);
    StillLive(o3, Proportional, qty, ts);
    StillLive(o4, Bernoulli, qty, ts);
  }

  lemma StillLive(o: SyntheticOrder, m: QueueModel, qty: Shares, ts: u64)
    ensures !NoneLive(BlindExecution(o, m, qty, ts)) ==> !NoneLive(o)
  {
  }

  // ----- dominance is kept by every event -----

  lemma LeadsKeptByDeduction(a: ModelState, b: ModelState, qty: Shares, c: Clock, ts: u64)
    requires Leads(a, b, c) && SaneState(a, c) && SaneState(b, c)
    ensures Leads(Deducted(a, qty, ts), Deducted(b, qty, ts), Later(c, ts))
    ensures SaneState(Deducted(a, qty, ts), Later(c, ts)) && SaneState(Deducted(b, qty, ts), Later(c, ts))
  {
  }

  lemma LeadsKeptByFill(a: ModelState, b: ModelState, c: Clock, ts: u64, why: FillReason)
    requires Leads(a, b, c) && SaneState(a, c) && SaneState(b, c)
    ensures Leads(FilledState(a, ts, why), FilledState(b, ts, why), Later(c, ts))
    ensures SaneState(FilledState(a, ts, why), Later(c, ts)) && SaneState(FilledState(b, ts, why), Later(c, ts))
  {
  }

  /** An execution keeps these three relations whatever it executes. */
  lemma BracketedAfterExecution(o: SyntheticOrder, r: Resolved, qty: Shares, c: Clock, ts: u64)
    requires Bracketed(o.views, c) && Sane(o, c)
    ensures var o' := AfterExecution(o, r, qty, ts); Bracketed(o'.views, Later(c, ts)) && Sane(o', Later(c, ts))
    ensures Dominated(o.views, c) ==> Dominated(AfterExecution(o, r, qty, ts).views, Later(c, ts))
  {
    hide AfterExecution, FilledFirst, Leads, Deducted, FilledState, Lowered, Worse;
    var v := o.views;
    if !o.anyLive || o.side != r.side || (!Worse(o, r) && r.price != o.price) {
      UntouchedByExecution(o, r, qty, ts);
      BracketedLater(v, c, ts);
    } else if Worse(o, r) {
      FilledAllViews(o, ts, TradeThrough);
      WalkedThrough(o, r, qty, ts);
      AllFilledBracketed(v, c, ts, TradeThrough);
    } else {
      ExecutionViews(o, r, qty, ts);
      if Leads(v.opt, v.prop, c) { LeadsKeptByDeduction(v.opt, v.prop, qty, c, ts); }
      LeadsKeptByDeduction(v.opt, v.bern, qty, c, ts);
      LeadsKeptByDeduction(v.prop, v.cons, qty, c, ts);
      LeadsKeptByDeduction(v.bern, v.cons, qty, c, ts);
      SaneExact(o, r, qty, c, ts);
    }
  }

  lemma DominatedAfterExecution(o: SyntheticOrder, r: Resolved, qty: Shares, c: Clock, ts: u64)
    requires Dominated(o.views, c) && Sane(o, c)
    ensures var o' := AfterExecution(o, r, qty, ts); Dominated(o'.views, Later(c, ts)) && Sane(o', Later(c, ts))
  {
    BracketedAfterExecution(o, r, qty, c, ts);
  }

  /** Exactly when an execution at the price keeps exact no worse than conservative: not when the order executed is
      resting ahead and conservative believes that nothing is. */
  lemma ExactLeadsExactly(o: SyntheticOrder, r: Resolved, qty: Shares, c: Clock, ts: u64)
    requires o.anyLive && o.side == r.side && o.price == r.price
    requires Leads(o.views.exact, o.views.cons, c) && SaneViews(o.views, c)
    ensures var v := AfterExecution(o, r, qty, ts).views;
            Leads(v.exact, v.cons, Later(c, ts)) <==>
              !(o.views.exact.live && r.ref in o.aheadRefs && o.views.cons.ahead == 0.0)
  {
    hide AfterExecution;
    ExecutionViews(o, r, qty, ts);
  }

  lemma UntouchedByExecution(o: SyntheticOrder, r: Resolved, qty: Shares, ts: u64)
    requires !o.anyLive || o.side != r.side || (!Worse(o, r) && r.price != o.price)
    ensures AfterExecution(o, r, qty, ts) == o
  {
  }

  lemma WalkedThrough(o: SyntheticOrder, r: Resolved, qty: Shares, ts: u64)
    requires o.anyLive && o.side == r.side && Worse(o, r)
    ensures AfterExecution(o, r, qty, ts) == FilledFirst(o, |MODELS|, ts, TradeThrough)
  {
  }

  lemma AllFilledBracketed(v: Views, c: Clock, ts: u64, why: FillReason)
    requires Bracketed(v, c) && SaneViews(v, c)
    ensures var v' := Views(FilledState(v.exact, ts, why), FilledState(v.cons, ts, why), FilledState(v.opt, ts, why),
                            FilledState(v.prop, ts, why), FilledState(v.bern, ts, why));
            && Bracketed(v', Later(c, ts)) && SaneViews(v', Later(c, ts))
            && (Dominated(v, c) ==> Dominated(v', Later(c, ts)))
  {
    hide Leads;
    if Leads(v.opt, v.prop, c) { LeadsKeptByFill(v.opt, v.prop, c, ts, why); }
    LeadsKeptByFill(v.opt, v.bern, c, ts, why);
    LeadsKeptByFill(v.prop, v.cons, c, ts, why);
    LeadsKeptByFill(v.bern, v.cons, c, ts, why);
  }

  lemma SaneExact(o: SyntheticOrder, r: Resolved, qty: Shares, c: Clock, ts: u64)
    requires SaneState(o.views.exact, c)
    ensures SaneState(ExactState(o, r, qty, ts), Later(c, ts))
  {
  }

  lemma BracketedAfterPrint(o: SyntheticOrder, price: Price, c: Clock, ts: u64)
    requires Bracketed(o.views, c) && Sane(o, c)
    ensures var o' := AfterPrint(o, price, ts); Bracketed(o'.views, Later(c, ts)) && Sane(o', Later(c, ts))
    ensures Dominated(o.views, c) ==> Dominated(AfterPrint(o, price, ts).views, Later(c, ts))
  {
    hide FilledFirst, FilledState, Leads;
    BracketedLater(o.views, c, ts);
    FilledAllViews(o, ts, NonDisplayedPrint);
    AllFilledBracketed(o.views, c, ts, NonDisplayedPrint);
  }

  lemma BracketedAfterExpiry(o: SyntheticOrder, c: Clock)
    requires Bracketed(o.views, c) && Sane(o, c)
    ensures Bracketed(ExpiredAll(o).views, c) && Sane(ExpiredAll(o), c)
    ensures Dominated(o.views, c) ==> Dominated(ExpiredAll(o).views, c)
  {
    hide ExpiredAll;
    ExpiredAllViews(o);
  }

  lemma Product(x: real, y: real)
    ensures 0.0 < x && 0.0 < y ==> 0.0 < x * y
    ensures 0.0 <= x && 0.0 <= y ==> 0.0 <= x * y
  {
  }

  lemma Spread(x: real, y: real, z: real)
    ensures x * (y + z) == x * y + x * z && (y - x) * z == y * z - x * z
  {
  }

  lemma Fraction(x: real, whole: real) returns (share: real)
    requires 0.0 <= x <= whole && 0.0 < whole
    ensures share == x / whole && 0.0 <= share <= 1.0 && share * whole == x
  {
    share := x / whole;
    Product(0.0 - share, whole);
    Product(share - 1.0, whole);
    Spread(share, 0.0, whole);
    Spread(1.0, share, whole);
  }

  lemma Scale(share: real, x: real)
    requires 0.0 <= share <= 1.0 && 0.0 <= x
    ensures 0.0 <= x * share <= x && x * share == share * x
  {
    Product(share, x);
    Product(1.0 - share, x);
    Spread(share, 1.0, x);
  }

  /** The proportional share of a removal: at most all of it, and it leaves at most what remains on the level. */
  lemma ShareBounds(ahead: real, qty: nat, after: nat)
    requires 0.0 <= ahead <= (after + qty) as real && after + qty > 0
    ensures var gone := Portion(ahead, qty, after + qty);
            0.0 <= gone <= qty as real && 0.0 <= ahead - gone <= after as real
  {
    hide Portion;
    var share := Fraction(ahead, (after + qty) as real);
    var gone := Portion(ahead, qty, after + qty);
    PortionIs(ahead, qty, after + qty, share);
    Parts(share, qty as real, after as real, ahead, gone);
  }

  lemma Parts(share: real, taken: real, left: real, ahead: real, gone: real)
    requires 0.0 <= share <= 1.0 && 0.0 <= taken && 0.0 <= left && share * (left + taken) == ahead
             && gone == taken * share
    ensures 0.0 <= gone <= taken && 0.0 <= ahead - gone <= left
  {
    Scale(share, taken);
    Scale(share, left);
    Spread(share, left, taken);
  }

  lemma PortionIs(ahead: real, qty: nat, before: nat, share: real)
    requires before > 0 && share == ahead / before as real
    ensures Portion(ahead, qty, before) == qty as real * share
  {
  }

  function Less(s: ModelState, x: real): ModelState { if s.live then Lowered(s, x) else s }

  lemma LeadsWhenLowered(a: ModelState, b: ModelState, x: real, y: real, c: Clock)
    requires Leads(a, b, c) && 0.0 <= y <= x && 0.0 <= a.ahead && 0.0 <= b.ahead
    ensures Leads(Less(a, x), Less(b, y), c) && Leads(Less(a, x), b, c)
  {
  }

  lemma SaneWhenLowered(s: ModelState, x: real, c: Clock)
    requires SaneState(s, c)
    ensures SaneState(Less(s, x), c) && Less(s, x).live == s.live
            && (0.0 <= x <= s.ahead && s.live ==> Less(s, x).ahead == s.ahead - x)
  {
  }

  /** What proportional takes off, as a quantity that may be nothing. */
  function Share(s: ModelState, qty: nat, after: nat): real {
    if s.live && after + qty > 0 then Portion(s.ahead, qty, after + qty) else 0.0
  }

  lemma CancelViews(o: SyntheticOrder, r: Resolved, qty: Shares, after: nat, coin: bool)
    requires o.anyLive && Names(o, r) && 0.0 <= o.views.prop.ahead && 0.0 <= o.views.bern.ahead
    ensures var v, o' := o.views, AfterCancel(o, r, qty, after, coin);
            && o' == o.(views := o'.views, aheadRefs := o'.aheadRefs)
            && o'.views == Views(if r.ref in o.aheadRefs then Less(v.exact, qty as real) else v.exact, v.cons,
                                 Less(v.opt, qty as real), Less(v.prop, Share(v.prop, qty, after)),
                                 if after + qty > 0 && Heads(v.bern.ahead, after + qty, coin)
                                     then Less(v.bern, qty as real) else v.bern)
  {
  }

  lemma ShareNotNegative(s: ModelState, qty: nat, after: nat)
    requires 0.0 <= s.ahead
    ensures 0.0 <= Share(s, qty, after)
  {
    hide Portion;
    if s.live && after + qty > 0 {
      var before := (after + qty) as real;
      NotNegative(s.ahead, before);
      PortionIs(s.ahead, qty, after + qty, s.ahead / before);
      assert 0.0 <= qty as real;
      Product(qty as real, s.ahead / before);
    }
  }

  /** A removal keeps these three relations whatever the depth of the level. */
  lemma BracketedAfterCancel(o: SyntheticOrder, r: Resolved, qty: Shares, after: nat, coin: bool, c: Clock)
    requires Bracketed(o.views, c) && Sane(o, c)
    ensures var o' := AfterCancel(o, r, qty, after, coin); Bracketed(o'.views, c) && Sane(o', c)
  {
    hide Leads, Lowered, AfterCancel, Less, Heads, Share;
    if o.anyLive && Names(o, r) {
      var v := o.views;
      CancelViews(o, r, qty, after, coin);
      ShareNotNegative(v.prop, qty, after);
      var gone := Share(v.prop, qty, after);
      LeadsWhenLowered(v.opt, v.bern, qty as real, qty as real, c);
      LeadsWhenLowered(v.prop, v.cons, gone, gone, c);
      LeadsWhenLowered(v.bern, v.cons, qty as real, qty as real, c);
      SaneWhenLowered(v.exact, qty as real, c);
      SaneWhenLowered(v.opt, qty as real, c);
      SaneWhenLowered(v.prop, gone, c);
      SaneWhenLowered(v.bern, qty as real, c);
    } else {
      UntouchedByCancel(o, r, qty, after, coin);
    }
  }

  /** It keeps proportional no better than optimistic too, as long as proportional believes no more is ahead than the
      level held. */
  lemma DominatedAfterCancel(o: SyntheticOrder, r: Resolved, qty: Shares, after: nat, coin: bool, c: Clock)
    requires Dominated(o.views, c) && Sane(o, c) && WithinDepth(o, after + qty)
    ensures var o' := AfterCancel(o, r, qty, after, coin);
            && Dominated(o'.views, c) && Sane(o', c) && (Names(o, r) ==> WithinDepth(o', after))
  {
    hide Leads, Lowered, AfterCancel, Less, Heads, Share;
    BracketedAfterCancel(o, r, qty, after, coin, c);
    if o.anyLive && Names(o, r) {
      var v := o.views;
      CancelViews(o, r, qty, after, coin);
      ShareBound(v.prop, qty, after);
      var gone := Share(v.prop, qty, after);
      LeadsWhenLowered(v.opt, v.prop, qty as real, gone, c);
      SaneWhenLowered(v.prop, gone, c);
    } else {
      UntouchedByCancel(o, r, qty, after, coin);
    }
  }

  /** Exactly when a removal keeps the order: proportional takes off no more than the removal and its lead over
      optimistic together, unless the removal brings optimistic to the front anyway. */
  lemma DominatedAfterCancelExactly(o: SyntheticOrder, r: Resolved, qty: Shares, after: nat, coin: bool, c: Clock)
    requires Dominated(o.views, c) && Sane(o, c) && o.anyLive && Names(o, r) && qty > 0
    ensures var v := o.views;
            Dominated(AfterCancel(o, r, qty, after, coin).views, c) <==>
              (v.opt.live && qty as real < v.opt.ahead ==>
                 Portion(v.prop.ahead, qty, after + qty) <= v.prop.ahead - v.opt.ahead + qty as real)
  {
    hide Lowered, AfterCancel, Less, Heads, Share, Portion, Leads;
    var v := o.views;
    var o' := AfterCancel(o, r, qty, after, coin);
    CancelViews(o, r, qty, after, coin);
    var gone := Share(v.prop, qty, after);
    ShareNotNegative(v.prop, qty, after);
    ShareIsPortion(v.prop, qty, after);
    if v.opt.live { OptimisticIsLive(o, c); }
    LeadsWhenLowered(v.opt, v.bern, qty as real, qty as real, c);
    LeadsWhenLowered(v.prop, v.cons, gone, gone, c);
    LeadsWhenLowered(v.bern, v.cons, qty as real, qty as real, c);
    OptimisticLeadsExactly(v.opt, v.prop, qty as real, gone, c);
  }

  lemma NotNegative(x: real, whole: real)
    requires 0.0 <= x && 0.0 < whole
    ensures 0.0 <= x / whole
  {
  }

  lemma ShareIsPortion(s: ModelState, qty: nat, after: nat)
    requires qty > 0
    ensures s.live ==> Share(s, qty, after) == Portion(s.ahead, qty, after + qty)
  {
  }

  lemma OptimisticLeadsExactly(a: ModelState, b: ModelState, x: real, y: real, c: Clock)
    requires Leads(a, b, c) && SaneState(a, c) && SaneState(b, c) && 0.0 <= x && 0.0 <= y
    ensures Leads(Less(a, x), Less(b, y), c) <==> (a.live && x < a.ahead ==> y <= b.ahead - a.ahead + x)
  {
  }

  /** While optimistic and proportional have the same count, as they do from entry until a removal, that is exactly the
      condition that proportional believes no more is ahead than the level held. */
  lemma WithinDepthIsExact(o: SyntheticOrder, r: Resolved, qty: Shares, after: nat, coin: bool, c: Clock)
    requires Dominated(o.views, c) && Sane(o, c) && o.anyLive && Names(o, r) && qty > 0
    requires o.views.opt.live && o.views.opt.ahead == o.views.prop.ahead
    ensures Dominated(AfterCancel(o, r, qty, after, coin).views, c) <==> WithinDepth(o, after + qty)
  {
    hide AfterCancel, Portion, Dominated, Sane;
    OptimisticIsLive(o, c);
    DominatedAfterCancelExactly(o, r, qty, after, coin, c);
    var ahead, before := o.views.prop.ahead, (after + qty) as real;
    assert qty as real <= before && 0.0 < before;
    PortionIs(ahead, qty, after + qty, ahead / before);
    AtMostAll(ahead, before, qty as real);
  }

  lemma OptimisticIsLive(o: SyntheticOrder, c: Clock)
    requires Dominated(o.views, c) && Sane(o, c) && o.views.opt.live
    ensures o.views.prop.live && 0.0 <= o.views.prop.ahead
  {
  }

  lemma AtMostAll(ahead: real, before: real, qty: real)
    requires 0.0 < qty <= before
    ensures qty * (ahead / before) <= qty <==> ahead <= before
  {
    var share := ahead / before;
    assert share * before == ahead;
    if share <= 1.0 {
      Product(1.0 - share, qty);
      Product(1.0 - share, before);
      Spread(share, 1.0, qty);
      Spread(share, 1.0, before);
      assert (1.0 - share) * qty == qty - share * qty;
      assert (1.0 - share) * before == before - share * before;
    } else {
      Product(share - 1.0, qty);
      Product(share - 1.0, before);
      Spread(1.0, share, qty);
      Spread(1.0, share, before);
    }
  }

  lemma ShareBound(s: ModelState, qty: Shares, after: nat)
    requires 0.0 <= s.ahead && (s.live ==> s.ahead <= (after + qty) as real)
    ensures 0.0 <= Share(s, qty, after) <= qty as real
    ensures s.live ==> 0.0 <= s.ahead - Share(s, qty, after) <= after as real
  {
    assert 0.0 <= qty as real;
    if s.live && after + qty > 0 { ShareBounds(s.ahead, qty, after); }
  }

  lemma UntouchedByCancel(o: SyntheticOrder, r: Resolved, qty: Shares, after: nat, coin: bool)
    requires !o.anyLive || !Names(o, r)
    ensures AfterCancel(o, r, qty, after, coin) == o
  {
  }

  /** Proportional stays within the depth through an execution at its price. */
  lemma WithinDepthAfterExecution(o: SyntheticOrder, r: Resolved, qty: Shares, ts: u64, after: nat)
    requires WithinDepth(o, after + qty) && o.side == r.side && o.price == r.price && (o.anyLive <==> !NoneLive(o))
    ensures WithinDepth(AfterExecution(o, r, qty, ts), after)
  {
    hide AfterExecution;
    if o.anyLive { ExecutionViews(o, r, qty, ts); } else { UntouchedByExecution(o, r, qty, ts); }
  }
}
