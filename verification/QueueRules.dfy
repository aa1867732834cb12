/** What one message does to one synthetic order, in prices, sides and counts, and streams that show it. */
module QueueRules {
  import opened BookTypes
  import opened BookSpec
  import opened QueueModels
  import opened QueueBooks

  /** The order's flag says whether some view is still live. */
  predicate Flagged(o: SyntheticOrder) {
    o.anyLive <==> o.views.exact.live || o.views.cons.live || o.views.opt.live || o.views.prop.live || o.views.bern.live
  }

  /** A view that has filled, if it was live. */
  predicate Fills(s: ModelState, s': ModelState, ts: u64, why: FillReason) {
    s' == if s.live then ModelState(s.ahead, false, true, why, ts) else s
  }

  predicate AllFill(o: SyntheticOrder, o': SyntheticOrder, ts: u64, why: FillReason) {
    && Fills(o.views.exact, o'.views.exact, ts, why) && Fills(o.views.cons, o'.views.cons, ts, why)
    && Fills(o.views.opt, o'.views.opt, ts, why) && Fills(o.views.prop, o'.views.prop, ts, why)
    && Fills(o.views.bern, o'.views.bern, ts, why)
    && o' == o.(views := o'.views, anyLive := false)
  }

  /** Some shares fewer ahead, and never less than none. */
  predicate Fewer(s: ModelState, s': ModelState, taken: Shares) {
    s' == s.(ahead := if s.ahead < taken as real then 0.0 else s.ahead - taken as real)
  }

  // ----- executions -----

  /** An approximation fills once it believes nothing is ahead, and until then has so much less ahead. */
  predicate Consumed(s: ModelState, s': ModelState, qty: Shares, ts: u64) {
    if s.live && s.ahead > 0.0 then Fewer(s, s', qty) else Fills(s, s', ts, ExecutionBehind)
  }

  /** Exact fills when the order executed is not one of those ahead; one that is fully executed is ahead no longer. */
  predicate ExecutedAtPrice(o: SyntheticOrder, o': SyntheticOrder, ref: Ref, size: Shares, qty: Shares, ts: u64) {
    && Consumed(o.views.cons, o'.views.cons, qty, ts) && Consumed(o.views.opt, o'.views.opt, qty, ts)
    && Consumed(o.views.prop, o'.views.prop, qty, ts) && Consumed(o.views.bern, o'.views.bern, qty, ts)
    && (if o.views.exact.live && ref in o.aheadRefs then Fewer(o.views.exact, o'.views.exact, qty)
        else Fills(o.views.exact, o'.views.exact, ts, ExecutionBehind))
    && o'.aheadRefs == (if o.views.exact.live && qty >= size then o.aheadRefs - {ref} else o.aheadRefs)
    && o' == o.(views := o'.views, aheadRefs := o'.aheadRefs, anyLive := o'.anyLive)
  }

  /** An execution of a live order: at a better price than the synthetic order's it means nothing to it, at a worse one
      every live view has traded through, and at its own price each view does its own sum. */
  lemma ExecutionHeard(b: Book, b': Book, m: Message, ts: u64, o: SyntheticOrder, coin: bool, printsFill: bool)
    requires m.Reduce? && m.kind != Cancelled && m.ref in b.orders && Flagged(o)
    ensures var x, o' := b.orders[m.ref], HeardBy(b, b', m, ts, o, coin, printsFill);
            && Flagged(o')
            && (!o.anyLive || x.locate != o.locate || x.side != o.side ==> o' == o)
            && (o.side == BUY && x.price > o.price ==> o' == o)
            && (o.side != BUY && x.price < o.price ==> o' == o)
            && (o.anyLive && x.locate == o.locate && o.side == x.side == BUY && x.price < o.price ==>
                  AllFill(o, o', ts, TradeThrough))
            && (o.anyLive && x.locate == o.locate && o.side == x.side != BUY && x.price > o.price ==>
                  AllFill(o, o', ts, TradeThrough))
            && (o.anyLive && x.locate == o.locate && o.side == x.side && x.price == o.price ==>
                  ExecutedAtPrice(o, o', m.ref, x.shares, m.qty, ts))
  {
    hide AfterExecution;
    var r := Resolve(b, m.ref);
    UntouchedIfElsewhere(o, r, m.qty, ts);
    if o.anyLive && o.side == r.side {
      if Worse(o, r) {
        WalkedThrough(o, r, m.qty, ts);
        FilledAllViews(o, ts, TradeThrough);
      } else if r.price == o.price {
        ExecutionViews(o, r, m.qty, ts);
      }
    }
  }

  lemma UntouchedIfElsewhere(o: SyntheticOrder, r: Resolved, qty: Shares, ts: u64)
    ensures !o.anyLive || o.side != r.side || (!Worse(o, r) && r.price != o.price) ==>
              AfterExecution(o, r, qty, ts) == o
  {
  }

  // ----- removals -----

  /** The message takes qty off a live order without executing it: a cancel what it says, a delete or a replace all. */
  predicate TakesOff(b: Book, m: Message, ref: Ref, qty: Shares) {
    && ref in b.orders
    && match m
       case Reduce(kind, _, r, q) => kind == Cancelled && r == ref && q == qty
       case Delete(_, r) => r == ref && qty == b.orders[ref].shares
       case Replace(_, r, _, _, _) => r == ref && qty == b.orders[ref].shares
       case _ => false
  }

  /** Proportional believes the same part of the level ahead after a removal as before it. */
  predicate SamePart(s: ModelState, s': ModelState, before: nat, after: nat) {
    s' == s.(ahead := s'.ahead) && s'.ahead * before as real == s.ahead * after as real
  }

  /** Bernoulli loses all of it for certain, none of it for certain, or what the coin says. */
  predicate Drawn(s: ModelState, s': ModelState, before: nat, qty: Shares, coin: bool) {
    if s.ahead >= before as real then Fewer(s, s', qty)
    else if s.ahead < 1.0 then s' == s
    else if coin then Fewer(s, s', qty) else s' == s
  }

  /** The level held `before` shares, of which qty have gone. */
  predicate RemovedAtPrice(o: SyntheticOrder, o': SyntheticOrder, ref: Ref, size: Shares, qty: Shares, after: nat,
                           coin: bool) {
    var v, v', before := o.views, o'.views, after + qty;
    && v'.cons == v.cons
    && (if v.opt.live then Fewer(v.opt, v'.opt, qty) else v'.opt == v.opt)
    && (if v.exact.live && ref in o.aheadRefs then Fewer(v.exact, v'.exact, qty) else v'.exact == v.exact)
    && (if v.prop.live && before > 0 then SamePart(v.prop, v'.prop, before, after) else v'.prop == v.prop)
    && (if v.bern.live && before > 0 then Drawn(v.bern, v'.bern, before, qty, coin) else v'.bern == v.bern)
    && o'.aheadRefs == (if v.exact.live && qty >= size then o.aheadRefs - {ref} else o.aheadRefs)
    && o' == o.(views := v', aheadRefs := o'.aheadRefs)
  }

  /** A removal touches the orders of the same symbol, side and price, and no other. */
  lemma RemovalHeard(b: Book, b': Book, m: Message, ref: Ref, qty: Shares, ts: u64, o: SyntheticOrder, coin: bool,
                     printsFill: bool)
    requires TakesOff(b, m, ref, qty) && 0.0 <= o.views.prop.ahead
    ensures var x, o' := b.orders[ref], HeardBy(b, b', m, ts, o, coin, printsFill);
            if o.anyLive && x.locate == o.locate && x.side == o.side && x.price == o.price
            then RemovedAtPrice(o, o', ref, x.shares, qty, Depth(b', KeyAt(o)), coin)
            else o' == o
  {
    hide AfterCancel, Depth;
    RemovedViews(o, Resolve(b, ref), qty, Depth(b', KeyAt(o)), coin);
  }

  lemma RemovedViews(o: SyntheticOrder, r: Resolved, qty: Shares, after: nat, coin: bool)
    requires 0.0 <= o.views.prop.ahead
    ensures var o' := AfterCancel(o, r, qty, after, coin);
            if o.anyLive && r.locate == o.locate && r.side == o.side && r.price == o.price
            then RemovedAtPrice(o, o', r.ref, r.shares, qty, after, coin) else o' == o
  {
    hide Portion;
    if after + qty > 0 { Scaled(o.views.prop.ahead, qty, after); }
  }

  lemma Scaled(ahead: real, qty: nat, after: nat)
    requires 0.0 <= ahead && after + qty > 0
    ensures var left := ahead - Portion(ahead, qty, after + qty);
            left * (after + qty) as real == ahead * after as real && (ahead > 0.0 || left == 0.0) && 0.0 <= left
  {
    hide Portion;
    var before := (after + qty) as real;
    var share := ahead / before;
    PortionIs(ahead, qty, after + qty, share);
    Times(share, before, qty as real, ahead, after as real);
  }

  lemma Times(share: real, before: real, qty: real, ahead: real, after: real)
    requires share * before == ahead && before == after + qty && before > 0.0 && 0.0 <= ahead && 0.0 <= after
    ensures (ahead - qty * share) * before == ahead * after && 0.0 <= ahead - qty * share
  {
    assert ahead - qty * share == share * after;
    assert share * after * before == (share * before) * after;
    assert 0.0 <= share;
  }

  // ----- prints, and everything else -----

  lemma PrintHeard(b: Book, b': Book, m: Message, ts: u64, o: SyntheticOrder, coin: bool, printsFill: bool)
    requires m.Trade? && Flagged(o)
    ensures var o' := HeardBy(b, b', m, ts, o, coin, printsFill);
            if printsFill && o.anyLive && m.locate == o.locate && m.price == o.price
            then AllFill(o, o', ts, NonDisplayedPrint) else o' == o
  {
    FilledAllViews(o, ts, NonDisplayedPrint);
  }

  /** No other message means anything to it, nor one that names no live order. */
  lemma NothingHeard(b: Book, b': Book, m: Message, ts: u64, o: SyntheticOrder, coin: bool, printsFill: bool)
    requires match m
             case Reduce(_, _, r, _) => r !in b.orders
             case Delete(_, r) => r !in b.orders
             case Replace(_, r, _, _, _) => r !in b.orders
             case _ => !m.Trade?
    ensures HeardBy(b, b', m, ts, o, coin, printsFill) == o
  {
  }
}
