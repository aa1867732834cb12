/** How the book moves under a synthetic order: the depth of its level, and the orders still ahead of it. */
module QueueBooks {
  import opened BookTypes
  import opened BookSpec
  import opened QueueModels

  function KeyAt(o: SyntheticOrder): Key { Key(o.locate, o.side == BUY, o.price) }

  predicate OneOfTwo(side: u8) { side == BUY || side == SELL }

  ghost predicate TwoSides(b: Book) { forall r :: r in b.orders ==> OneOfTwo(b.orders[r].side) }

  function Depth(b: Book, k: Key): nat { SumShares(b.orders, Queue(b, k)) }

  /** The live order a message names, as it stands before the message. */
  function Resolve(b: Book, r: Ref): Resolved
    requires r in b.orders
  {
    var o := b.orders[r];
    Resolved(r, o.locate, o.side, o.price, o.shares)
  }

  /** The live order a message takes shares from, and how many it says. */
  datatype Gone = Gone(ref: Ref, qty: Shares)

  function Removal(b: Book, m: Message): Option<Gone> {
    match m
    case Reduce(_, _, r, qty) => if r in b.orders then Some(Gone(r, qty)) else None
    case Delete(_, r) => if r in b.orders then Some(Gone(r, b.orders[r].shares)) else None
    case Replace(_, r, _, _, _) => if r in b.orders then Some(Gone(r, b.orders[r].shares)) else None
    case _ => None
  }

  /** No reference is given to a second live order, and sides are 'B' or 'S'. */
  predicate Orderly(b: Book, m: Message) {
    && (m.Add? ==> m.ref !in b.orders && OneOfTwo(m.side))
    && (m.Replace? ==> m.newRef !in b.orders || m.newRef == m.oldRef)
  }

  /** The message takes no more from an order than the order has. */
  predicate NoOverTake(b: Book, m: Message) { m.Reduce? && m.ref in b.orders ==> m.qty <= b.orders[m.ref].shares }

  /** An order it adds has a size, and if it is an execution it takes no more than there is. */
  predicate Plain(b: Book, m: Message) {
    (m.Add? || m.Replace? ==> m.shares > 0) && (IsExecution(m) ==> NoOverTake(b, m))
  }

  predicate IsExecution(m: Message) { m.Reduce? && m.kind != Cancelled }

  // ----- the depth of a level -----

  lemma DepthAfterErase(b: Book, r: Ref, k: Key)
    requires WellFormed(b) && r in b.orders
    ensures Depth(b, k) == Depth(Erase(b, r), k) + if k == KeyOf(b.orders[r]) then b.orders[r].shares else 0
  {
    hide WellFormed, Erase, Distinct, KeyOf;
    QueueAfterErase(b, r);
    ErasedOrders(b, r);
    OwnQueue(b, r);
    QueueListsOwn(b, k);
    if k == KeyOf(b.orders[r]) {
      SumAfterErase(b.orders, Queue(b, k), r);
    } else {
      SumFrame(b.orders, b.orders - {r}, Queue(b, k));
    }
  }

  lemma DepthAfterAppend(b: Book, r: Ref, o: Order, k: Key)
    requires WellFormed(b) && r !in b.orders
    ensures Depth(Append(b, r, o), k) == Depth(b, k) + if k == KeyOf(o) then o.shares else 0
  {
    hide WellFormed;
    QueueAfterAppend(b, r, o);
    QueueListsOwn(b, k);
    SumFrame(b.orders, b.orders[r := o], Queue(b, k));
    SumConcat(b.orders[r := o], Queue(b, k), [r]);
    assert [r][1..] == [];
  }

  lemma DepthAfterDeduct(b: Book, r: Ref, taken: Shares, k: Key)
    requires WellFormed(b) && r in b.orders && taken <= b.orders[r].shares
    ensures Depth(b, k) == Depth(Deduct(b, r, taken), k) + if k == KeyOf(b.orders[r]) then taken else 0
  {
    hide WellFormed;
    OwnQueue(b, r);
    var q, b' := Queue(b, k), Deduct(b, r, taken);
    QueueListsOwn(b, k);
    if k == KeyOf(b.orders[r]) {
      SumWithout(b.orders, q, r);
      SumWithout(b'.orders, q, r);
      WithoutMembers(q, r);
      SumFrame(b.orders, b'.orders, Without(q, r));
    } else {
      SumFrame(b.orders, b'.orders, q);
    }
  }

  function Least(x: nat, y: nat): nat { if x <= y then x else y }

  /** The shares a message takes out of a level. */
  function TakenAt(b: Book, m: Message, k: Key): nat {
    var gone := Removal(b, m);
    if gone.Some? && KeyOf(b.orders[gone.value.ref]) == k then Least(gone.value.qty, b.orders[gone.value.ref].shares)
        else 0
  }

  /** A message takes out of a level what it names there and nothing else. */
  lemma DepthAfterStep(s: State, m: Message, k: Key)
    requires WellFormed(s.book) && Orderly(s.book, m)
    ensures Depth(s.book, k) <= Depth(Step(s, m, false).book, k) + TakenAt(s.book, m, k)
    ensures !m.Replace? && !m.Add? ==> Depth(s.book, k) == Depth(Step(s, m, false).book, k) + TakenAt(s.book, m, k)
  {
    hide WellFormed, Depth, Erase, Append, Deduct, Observe;
    match m
    case Add(locate, r, side, price, shares) => DepthAfterAppend(s.book, r, Order(locate, side, price, shares), k);
    case Reduce(_, _, r, qty) =>
      if r in s.book.orders {
        DepthAfterErase(s.book, r, k);
        DepthAfterDeduct(s.book, r, Least(qty, s.book.orders[r].shares), k);
      }
    case Delete(_, r) => if r in s.book.orders { DepthAfterErase(s.book, r, k); }
    case Replace(_, r, newRef, price, shares) =>
      if r in s.book.orders {
        var prior := s.book.orders[r];
        DepthAfterErase(s.book, r, k);
        EraseWellFormed(s.book, r);
        ErasedOrders(s.book, r);
        DepthAfterAppend(Erase(s.book, r), newRef, Order(prior.locate, prior.side, price, shares), k);
      }
    case _ =>
  }

  // ----- the orders ahead -----

  ghost function Members(q: seq<Ref>): set<Ref> { set r | r in q }

  /** Those references are the first n of the level's queue, and that is what they add up to. */
  ghost predicate First(b: Book, k: Key, refs: set<Ref>, ahead: real, n: nat) {
    n <= |Queue(b, k)| && refs == Members(Queue(b, k)[..n]) && ahead == SumShares(b.orders, Queue(b, k)[..n]) as real
  }

  ghost predicate Tracks(b: Book, k: Key, refs: set<Ref>, ahead: real) { exists n: nat :: First(b, k, refs, ahead, n) }

  lemma TracksWhole(b: Book, k: Key)
    ensures Tracks(b, k, Members(Queue(b, k)), Depth(b, k) as real)
  {
    var q := Queue(b, k);
    assert q[..|q|] == q;
    assert First(b, k, Members(q), Depth(b, k) as real, |q|);
  }

  lemma TracksAfterAppend(b: Book, r: Ref, o: Order, k: Key, refs: set<Ref>, ahead: real)
    requires WellFormed(b) && r !in b.orders && Tracks(b, k, refs, ahead)
    ensures Tracks(Append(b, r, o), k, refs, ahead)
  {
    hide WellFormed;
    var n: nat :| First(b, k, refs, ahead, n);
    QueueAfterAppend(b, r, o);
    QueueListsOwn(b, k);
    var b' := Append(b, r, o);
    assert Queue(b', k)[..n] == Queue(b, k)[..n];
    SumFrame(b.orders, b'.orders, Queue(b, k)[..n]);
    assert First(b', k, refs, ahead, n);
  }

  lemma TracksAfterDeduct(b: Book, r: Ref, taken: Shares, k: Key, refs: set<Ref>, ahead: real)
    requires WellFormed(b) && r in b.orders && taken <= b.orders[r].shares && Tracks(b, k, refs, ahead)
    ensures Tracks(Deduct(b, r, taken), k, refs, if r in refs then ahead - taken as real else ahead)
  {
    hide WellFormed;
    var n: nat :| First(b, k, refs, ahead, n);
    var q, b' := Queue(b, k)[..n], Deduct(b, r, taken);
    if r in q {
      PrefixDistinct(b, k, n);
      SumWithout(b.orders, q, r);
      SumWithout(b'.orders, q, r);
      WithoutMembers(q, r);
      SumFrame(b.orders, b'.orders, Without(q, r));
      assert First(b', k, refs, ahead - taken as real, n);
    } else {
      SumFrame(b.orders, b'.orders, q);
      assert First(b', k, refs, ahead, n);
    }
  }

  lemma PrefixDistinct(b: Book, k: Key, n: nat)
    requires WellFormed(b) && n <= |Queue(b, k)|
    ensures Distinct(Queue(b, k)[..n]) && Distinct(Queue(b, k))
  {
  }

  /** An order that leaves from behind changes nothing; one that leaves from ahead takes its shares with it. */
  lemma TracksAfterErase(b: Book, r: Ref, k: Key, refs: set<Ref>, ahead: real)
    requires WellFormed(b) && r in b.orders && Tracks(b, k, refs, ahead)
    ensures Tracks(Erase(b, r), k, refs - {r}, if r in refs then ahead - b.orders[r].shares as real else ahead)
  {
    hide WellFormed, Erase, KeyOf, SumShares, Distinct, Without;
    var n: nat :| First(b, k, refs, ahead, n);
    var q, b' := Queue(b, k), Erase(b, r);
    QueueAfterErase(b, r);
    ErasedOrders(b, r);
    QueueListsOwn(b, k);
    PrefixDistinct(b, k, n);
    OwnQueue(b, r);
    if r !in q {
      SumFrame(b.orders, b'.orders, q[..n]);
      assert First(b', k, refs - {r}, ahead, n);
    } else if r in q[..n] {
      PrefixWithout(q, n, r);
      SumAfterErase(b.orders, q[..n], r);
      WithoutMembers(q[..n], r);
      assert First(b', k, refs - {r}, ahead - b.orders[r].shares as real, n - 1);
    } else {
      PrefixWithout(q, n, r);
      SumFrame(b.orders, b'.orders, q[..n]);
      assert First(b', k, refs - {r}, ahead, n);
    }
  }

  lemma PrefixWithout(q: seq<Ref>, n: nat, r: Ref)
    requires n <= |q| && Distinct(q) && r in q
    ensures r in q[..n] ==> |Without(q, r)| >= n - 1 && Without(q, r)[..n - 1] == Without(q[..n], r)
    ensures r !in q[..n] ==> |Without(q, r)| >= n && Without(q, r)[..n] == q[..n]
  {
    var i := Find(q, r);
    WithoutAt(q, i);
    if i < n {
      assert q[..n][i] == r;
      WithoutAt(q[..n], i);
    } else {
      forall j | 0 <= j < n ensures q[..n][j] != r {}
    }
  }

  lemma TrackedAreListed(b: Book, k: Key, refs: set<Ref>, ahead: real)
    requires WellFormed(b) && Tracks(b, k, refs, ahead)
    ensures forall r :: r in refs ==> r in b.orders && KeyOf(b.orders[r]) == k
    ensures 0.0 <= ahead && (Positive(b) && refs != {} ==> 0.0 < ahead)
  {
    hide WellFormed;
    var n: nat :| First(b, k, refs, ahead, n);
    QueueListsOwn(b, k);
    var q := Queue(b, k)[..n];
    if Positive(b) && refs != {} {
      assert q[0] in Queue(b, k);
      assert SumShares(b.orders, q) >= b.orders[q[0]].shares;
    }
  }

  /** The references ahead after a message has taken qty from order r. */
  function RefsAfter(refs: set<Ref>, r: Ref, qty: nat, shares: nat): set<Ref> {
    if qty >= shares then refs - {r} else refs
  }

  /** An orderly message keeps track of the orders ahead: they stay the front of the queue, and what it really takes
      from one of them, at most its size, comes off their sum. */
  lemma TracksAfterStep(s: State, m: Message, k: Key, refs: set<Ref>, ahead: real)
    requires WellFormed(s.book) && Orderly(s.book, m) && Tracks(s.book, k, refs, ahead)
    ensures var gone, b' := Removal(s.book, m), Step(s, m, false).book;
            if gone.None? then Tracks(b', k, refs, ahead)
            else
              var r, qty, shares := gone.value.ref, gone.value.qty, s.book.orders[gone.value.ref].shares;
              Tracks(b', k, RefsAfter(refs, r, qty, shares),
                     if r in refs then ahead - Least(qty, shares) as real else ahead)
  {
    hide WellFormed, Tracks, Erase, Append, Deduct, Observe;
    match m
    case Add(locate, r, side, price, shares) =>
      TracksAfterAppend(s.book, r, Order(locate, side, price, shares), k, refs, ahead);
    case Reduce(_, _, r, qty) =>
      if r in s.book.orders {
        TracksAfterErase(s.book, r, k, refs, ahead);
        TracksAfterDeduct(s.book, r, Least(qty, s.book.orders[r].shares), k, refs, ahead);
      }
    case Delete(_, r) => if r in s.book.orders { TracksAfterErase(s.book, r, k, refs, ahead); }
    case Replace(_, r, newRef, price, shares) =>
      if r in s.book.orders {
        var prior := s.book.orders[r];
        TracksAfterErase(s.book, r, k, refs, ahead);
        EraseWellFormed(s.book, r);
        ErasedOrders(s.book, r);
        TracksAfterAppend(Erase(s.book, r), newRef, Order(prior.locate, prior.side, price, shares), k, refs - {r},
                          if r in refs then ahead - prior.shares as real else ahead);
      }
    case _ =>
  }

  // ----- one order through one message -----

  /** The models are in order, and proportional is within its level. */
  ghost predicate Ranked(o: SyntheticOrder, b: Book, c: Clock) {
    OneOfTwo(o.side) && Dominated(o.views, c) && Sane(o, c) && WithinDepth(o, Depth(b, KeyAt(o)))
  }

  /** While exact has the order live, the references ahead are the front of its level's queue. */
  ghost predicate Fronted(o: SyntheticOrder, b: Book) {
    o.views.exact.live ==> exists sum: real :: Tracks(b, KeyAt(o), o.aheadRefs, sum)
  }

  /** And its count is what those orders add up to. */
  ghost predicate Counted(o: SyntheticOrder, b: Book) {
    o.views.exact.live ==> Tracks(b, KeyAt(o), o.aheadRefs, o.views.exact.ahead)
  }

  /** Exact is no worse than conservative, which never believes that less is ahead than really is. */
  ghost predicate Backed(o: SyntheticOrder, b: Book, c: Clock) {
    && Leads(o.views.exact, o.views.cons, c)
    && (o.views.exact.live ==>
          exists sum: real :: Tracks(b, KeyAt(o), o.aheadRefs, sum) && sum <= o.views.cons.ahead)
  }

  /** An execution reaches the orders of its own symbol. */
  function TouchedByExecution(o: SyntheticOrder, r: Resolved, qty: Shares, ts: u64): SyntheticOrder {
    if o.locate == r.locate then AfterExecution(o, r, qty, ts) else o
  }

  ghost predicate Ready(s: State, m: Message) {
    WellFormed(s.book) && TwoSides(s.book) && Orderly(s.book, m)
  }

  lemma SameLevel(b: Book, r: Ref, o: SyntheticOrder)
    requires TwoSides(b) && r in b.orders && OneOfTwo(o.side)
    ensures Names(o, Resolve(b, r)) <==> KeyAt(o) == KeyOf(b.orders[r])
  {
  }

  lemma KeyKept(o: SyntheticOrder, r: Resolved, qty: Shares, ts: u64)
    ensures KeyAt(AfterExecution(o, r, qty, ts)) == KeyAt(o) && AfterExecution(o, r, qty, ts).side == o.side
  {
    hide AfterExecution, FilledFirst;
    if !o.anyLive || o.side != r.side || (!Worse(o, r) && r.price != o.price) {
      UntouchedByExecution(o, r, qty, ts);
    } else if Worse(o, r) {
      WalkedThrough(o, r, qty, ts);
      FilledAllViews(o, ts, TradeThrough);
    } else {
      ExecutionViews(o, r, qty, ts);
    }
  }

  lemma RankedAfterExecution(s: State, m: Message, o: SyntheticOrder, c: Clock, ts: u64)
    requires Ready(s, m) && m.Reduce? && m.ref in s.book.orders && Ranked(o, s.book, c)
    ensures Ranked(TouchedByExecution(o, Resolve(s.book, m.ref), m.qty, ts), Step(s, m, false).book, Later(c, ts))
  {
    hide AfterExecution, WellFormed, Depth, Step, Dominated, SaneViews;
    var r, b' := Resolve(s.book, m.ref), Step(s, m, false).book;
    DepthAfterStep(s, m, KeyAt(o));
    SameLevel(s.book, m.ref, o);
    SaneLater(o, c, ts);
    if o.locate == r.locate {
      DominatedAfterExecution(o, r, m.qty, c, ts);
      KeyKept(o, r, m.qty, ts);
      if Names(o, r) {
        WithinDepthAfterExecution(o, r, m.qty, ts, Depth(b', KeyAt(o)));
      } else {
        NotNamed(o, r, m.qty, ts);
      }
    }
  }

  lemma SaneLater(o: SyntheticOrder, c: Clock, ts: u64)
    requires Sane(o, c)
    ensures Sane(o, Later(c, ts)) && (Dominated(o.views, c) ==> Dominated(o.views, Later(c, ts)))
  {
  }

  /** An execution elsewhere either leaves an order alone or fills it outright. */
  lemma NotNamed(o: SyntheticOrder, r: Resolved, qty: Shares, ts: u64)
    requires o.side != r.side || o.price != r.price
    ensures AfterExecution(o, r, qty, ts) == o || NoneLive(AfterExecution(o, r, qty, ts))
  {
    hide AfterExecution, FilledFirst;
    if !o.anyLive || o.side != r.side || (!Worse(o, r) && r.price != o.price) {
      UntouchedByExecution(o, r, qty, ts);
    } else {
      WalkedThrough(o, r, qty, ts);
      FilledAllViews(o, ts, TradeThrough);
    }
  }

  lemma RankedAfterRemoval(s: State, m: Message, o: SyntheticOrder, coin: bool, c: Clock, ts: u64)
    requires Ready(s, m) && Removal(s.book, m).Some? && Ranked(o, s.book, c)
    ensures var r, qty, b' := Removal(s.book, m).value.ref, Removal(s.book, m).value.qty, Step(s, m, false).book;
            Ranked(AfterCancel(o, Resolve(s.book, r), qty, Depth(b', KeyAt(o)), coin), b', Later(c, ts))
  {
    hide AfterCancel, WellFormed, Depth, Step, Dominated, SaneViews;
    var r, qty, b' := Removal(s.book, m).value.ref, Removal(s.book, m).value.qty, Step(s, m, false).book;
    DepthAfterStep(s, m, KeyAt(o));
    SameLevel(s.book, r, o);
    SaneLater(o, c, ts);
    CancelKeepsKey(o, Resolve(s.book, r), qty, Depth(b', KeyAt(o)), coin);
    if Names(o, Resolve(s.book, r)) {
      DominatedAfterCancel(o, Resolve(s.book, r), qty, Depth(b', KeyAt(o)), coin, Later(c, ts));
    } else {
      UntouchedByCancel(o, Resolve(s.book, r), qty, Depth(b', KeyAt(o)), coin);
    }
  }

  lemma CancelKeepsKey(o: SyntheticOrder, r: Resolved, qty: Shares, after: nat, coin: bool)
    ensures KeyAt(AfterCancel(o, r, qty, after, coin)) == KeyAt(o) && AfterCancel(o, r, qty, after, coin).side == o.side
  {
  }

  lemma RankedOtherwise(s: State, m: Message, o: SyntheticOrder, c: Clock, ts: u64)
    requires Ready(s, m) && Removal(s.book, m).None? && Ranked(o, s.book, c)
    ensures Ranked(o, Step(s, m, false).book, Later(c, ts))
  {
    hide WellFormed, Depth, Step, Dominated, SaneViews;
    DepthAfterStep(s, m, KeyAt(o));
    SaneLater(o, c, ts);
  }

  /** What a message that takes qty from order r, of that size, may do to exact while it keeps the order live. */
  predicate ExactMoved(o: SyntheticOrder, o': SyntheticOrder, r: Ref, qty: Shares, shares: Shares) {
    && KeyAt(o') == KeyAt(o)
    && (o'.views.exact.live ==>
          && o.views.exact.live && o'.aheadRefs == RefsAfter(o.aheadRefs, r, qty, shares)
          && o'.views.exact.ahead ==
              (if r in o.aheadRefs then Lowered(o.views.exact, qty as real) else o.views.exact).ahead)
  }

  lemma NotAhead(refs: set<Ref>, r: Ref, qty: nat, shares: nat)
    ensures r !in refs ==> RefsAfter(refs, r, qty, shares) == refs
  {
  }

  /** The references ahead rest at the order's own level. */
  lemma FrontedAreNamed(b: Book, o: SyntheticOrder, r: Ref)
    requires WellFormed(b) && TwoSides(b) && OneOfTwo(o.side) && Fronted(o, b)
    ensures o.views.exact.live && r in o.aheadRefs ==> r in b.orders && Names(o, Resolve(b, r))
  {
    hide WellFormed, Tracks;
    if o.views.exact.live {
      var sum: real :| Tracks(b, KeyAt(o), o.aheadRefs, sum);
      TrackedAreListed(b, KeyAt(o), o.aheadRefs, sum);
      if r in o.aheadRefs { SameLevel(b, r, o); }
    }
  }

  lemma ExactMovedByExecution(b: Book, o: SyntheticOrder, r: Ref, qty: Shares, ts: u64)
    requires WellFormed(b) && TwoSides(b) && OneOfTwo(o.side) && Fronted(o, b) && r in b.orders && LivesOn(o)
    ensures ExactMoved(o, TouchedByExecution(o, Resolve(b, r), qty, ts), r, qty, b.orders[r].shares)
  {
    hide AfterExecution, FilledFirst, WellFormed, TwoSides, Fronted;
    var x := Resolve(b, r);
    FrontedAreNamed(b, o, r);
    NotAhead(o.aheadRefs, r, qty, x.shares);
    if o.locate == x.locate {
      if !o.anyLive || o.side != x.side || (!Worse(o, x) && x.price != o.price) {
        UntouchedByExecution(o, x, qty, ts);
        if o.anyLive { NotNamedUntouched(o, x); }
      } else if Worse(o, x) {
        WalkedThrough(o, x, qty, ts);
        FilledAllViews(o, ts, TradeThrough);
      } else {
        ExecutionViews(o, x, qty, ts);
      }
    }
  }

  lemma ExactMovedByRemoval(b: Book, o: SyntheticOrder, r: Ref, qty: Shares, after: nat, coin: bool)
    requires WellFormed(b) && TwoSides(b) && OneOfTwo(o.side) && Fronted(o, b) && r in b.orders && LivesOn(o)
    ensures ExactMoved(o, AfterCancel(o, Resolve(b, r), qty, after, coin), r, qty, b.orders[r].shares)
  {
    hide WellFormed, TwoSides, Fronted, Heads;
    FrontedAreNamed(b, o, r);
    NotAhead(o.aheadRefs, r, qty, b.orders[r].shares);
  }

  /** The order is live while exact has it live. */
  predicate LivesOn(o: SyntheticOrder) { o.views.exact.live ==> o.anyLive }

  lemma NotNamedUntouched(o: SyntheticOrder, r: Resolved)
    requires o.side != r.side || r.price != o.price
    ensures !Names(o, r)
  {
  }

  /** Through any message that takes from a live order, the references ahead stay the front of the queue, whatever it
      takes; the count stays theirs if it takes no more than there is. */
  lemma FrontedAfterTaking(s: State, m: Message, o: SyntheticOrder, o': SyntheticOrder)
    requires WellFormed(s.book) && Orderly(s.book, m) && Removal(s.book, m).Some? && Fronted(o, s.book)
    requires var g := Removal(s.book, m).value; ExactMoved(o, o', g.ref, g.qty, s.book.orders[g.ref].shares)
    ensures Fronted(o', Step(s, m, false).book)
    ensures Counted(o, s.book) && NoOverTake(s.book, m) ==> Counted(o', Step(s, m, false).book)
  {
    hide WellFormed, Tracks, Step, Orderly;
    if o'.views.exact.live {
      var g := Removal(s.book, m).value;
      var sum: real :| Tracks(s.book, KeyAt(o), o.aheadRefs, sum);
      TracksAfterStep(s, m, KeyAt(o), o.aheadRefs, sum);
      if Counted(o, s.book) && NoOverTake(s.book, m) {
        TracksAfterStep(s, m, KeyAt(o), o.aheadRefs, o.views.exact.ahead);
        if g.ref in o.aheadRefs { TrackedHolds(s.book, KeyAt(o), o.aheadRefs, o.views.exact.ahead, g.ref); }
      }
    }
  }

  /** What is tracked adds up to at least each order in it. */
  lemma TrackedHolds(b: Book, k: Key, refs: set<Ref>, ahead: real, r: Ref)
    requires r in refs && Tracks(b, k, refs, ahead)
    ensures ShareOf(b.orders, r) as real <= ahead
  {
    var n: nat :| First(b, k, refs, ahead, n);
    ShareOfOne(b.orders, Queue(b, k)[..n], r);
  }

  lemma {:induction false} ShareOfOne(orders: map<Ref, Order>, q: seq<Ref>, r: Ref)
    requires r in q
    ensures ShareOf(orders, r) <= SumShares(orders, q)
  {
    if q[0] != r { ShareOfOne(orders, q[1..], r); }
  }

  /** An execution that takes no more than there is keeps exact no worse than conservative, where orders have sizes. */
  lemma BackedAfterExecution(s: State, m: Message, o: SyntheticOrder, c: Clock, ts: u64)
    requires Ready(s, m) && IsExecution(m) && m.ref in s.book.orders && Ranked(o, s.book, c)
    requires Positive(s.book) && NoOverTake(s.book, m) && Backed(o, s.book, c)
    ensures Backed(TouchedByExecution(o, Resolve(s.book, m.ref), m.qty, ts), Step(s, m, false).book, Later(c, ts))
  {
    hide AfterExecution, WellFormed, Tracks, Step, FilledFirst, Dominated, TwoSides, Orderly, Leads;
    var r, v := Resolve(s.book, m.ref), o.views;
    var o' := TouchedByExecution(o, r, m.qty, ts);
    ExactMovedByExecution(s.book, o, m.ref, m.qty, ts);
    LeadsLater(v.exact, v.cons, c, ts);
    if o.locate == r.locate {
      if !o.anyLive || o.side != r.side || (!Worse(o, r) && r.price != o.price) {
        UntouchedByExecution(o, r, m.qty, ts);
      } else if Worse(o, r) {
        WalkedThrough(o, r, m.qty, ts);
        FilledAllViews(o, ts, TradeThrough);
        LeadsKeptByFill(v.exact, v.cons, c, ts, TradeThrough);
      } else {
        ExecutionViews(o, r, m.qty, ts);
        ExactLeadsExactly(o, r, m.qty, c, ts);
        BackedIsAhead(s.book, o, m.ref, c);
      }
    }
    if o'.views.exact.live {
      var sum: real :| Tracks(s.book, KeyAt(o), o.aheadRefs, sum) && sum <= v.cons.ahead;
      var taken := if m.ref in o.aheadRefs then Least(m.qty, r.shares) else 0;
      TracksAfterStep(s, m, KeyAt(o), o.aheadRefs, sum);
      NotAhead(o.aheadRefs, m.ref, m.qty, r.shares);
      if m.ref in o.aheadRefs { FrontedAreNamed(s.book, o, m.ref); }
      assert Tracks(Step(s, m, false).book, KeyAt(o'), o'.aheadRefs, sum - taken as real);
      assert sum - taken as real <= o'.views.cons.ahead;
    }
  }

  lemma LeadsLater(a: ModelState, b: ModelState, c: Clock, ts: u64)
    ensures Leads(a, b, c) ==> Leads(a, b, Later(c, ts))
  {
  }

  /** With an order of some size tracked ahead, conservative does not believe that nothing is. */
  lemma BackedIsAhead(b: Book, o: SyntheticOrder, r: Ref, c: Clock)
    requires Positive(b) && Backed(o, b, c) && r in b.orders
    ensures o.views.exact.live && r in o.aheadRefs ==> 0.0 < o.views.cons.ahead
  {
    hide Tracks;
    if o.views.exact.live && r in o.aheadRefs {
      var sum: real :| Tracks(b, KeyAt(o), o.aheadRefs, sum) && sum <= o.views.cons.ahead;
      TrackedHolds(b, KeyAt(o), o.aheadRefs, sum, r);
    }
  }

  /** A removal keeps it so whatever it takes. */
  lemma BackedAfterRemoval(s: State, m: Message, o: SyntheticOrder, coin: bool, c: Clock, ts: u64)
    requires Ready(s, m) && Removal(s.book, m).Some? && Ranked(o, s.book, c) && Backed(o, s.book, c)
    ensures var g, b' := Removal(s.book, m).value, Step(s, m, false).book;
            Backed(AfterCancel(o, Resolve(s.book, g.ref), g.qty, Depth(b', KeyAt(o)), coin), b', Later(c, ts))
  {
    hide WellFormed, Tracks, Step, Dominated, Depth, TwoSides, Orderly, Heads;
    var g, b' := Removal(s.book, m).value, Step(s, m, false).book;
    var x := Resolve(s.book, g.ref);
    if o.views.exact.live {
      var sum: real :| Tracks(s.book, KeyAt(o), o.aheadRefs, sum) && sum <= o.views.cons.ahead;
      TracksAfterStep(s, m, KeyAt(o), o.aheadRefs, sum);
      FrontedAreNamed(s.book, o, g.ref);
      NotAhead(o.aheadRefs, g.ref, g.qty, x.shares);
      ExactMovedByRemoval(s.book, o, g.ref, g.qty, Depth(b', KeyAt(o)), coin);
    }
    ConservativeKept(o, x, g.qty, Depth(b', KeyAt(o)), coin, c, ts);
  }

  lemma ConservativeKept(o: SyntheticOrder, r: Resolved, qty: Shares, after: nat, coin: bool, c: Clock, ts: u64)
    requires Leads(o.views.exact, o.views.cons, c) && Sane(o, c)
    ensures var v := AfterCancel(o, r, qty, after, coin).views;
            v.cons == o.views.cons && Leads(v.exact, v.cons, Later(c, ts))
  {
    hide Heads, Portion;
  }

  lemma ExactOtherwise(s: State, m: Message, o: SyntheticOrder, c: Clock, ts: u64)
    requires Ready(s, m) && Removal(s.book, m).None? && Ranked(o, s.book, c)
    ensures Fronted(o, s.book) ==> Fronted(o, Step(s, m, false).book)
    ensures Counted(o, s.book) ==> Counted(o, Step(s, m, false).book)
    ensures Backed(o, s.book, c) ==> Backed(o, Step(s, m, false).book, Later(c, ts))
  {
    hide WellFormed, Tracks, Step;
    var k, refs := KeyAt(o), o.aheadRefs;
    forall sum: real | Tracks(s.book, k, refs, sum) ensures Tracks(Step(s, m, false).book, k, refs, sum) {
      TracksAfterStep(s, m, k, refs, sum);
    }
  }

  // ----- events that leave the book alone -----

  lemma RankedAfterPrint(b: Book, o: SyntheticOrder, price: Price, c: Clock, ts: u64)
    requires Ranked(o, b, c)
    ensures Ranked(AfterPrint(o, price, ts), b, Later(c, ts))
    ensures Fronted(o, b) ==> Fronted(AfterPrint(o, price, ts), b)
    ensures Counted(o, b) ==> Counted(AfterPrint(o, price, ts), b)
    ensures Backed(o, b, c) ==> Backed(AfterPrint(o, price, ts), b, Later(c, ts))
  {
    hide Depth, Tracks, FilledFirst, FilledState;
    BracketedAfterPrint(o, price, c, ts);
    FilledAllViews(o, ts, NonDisplayedPrint);
    LeadsFill(o.views.exact, o.views.cons, c, ts);
    NoneLeft(o, ts);
  }

  lemma LeadsFill(a: ModelState, b: ModelState, c: Clock, ts: u64)
    requires SaneState(a, c) && SaneState(b, c)
    ensures Leads(a, b, c) ==>
              Leads(FilledState(a, ts, NonDisplayedPrint), FilledState(b, ts, NonDisplayedPrint), Later(c, ts))
  {
    if Leads(a, b, c) { LeadsKeptByFill(a, b, c, ts, NonDisplayedPrint); }
  }

  lemma NoneLeft(o: SyntheticOrder, ts: u64)
    ensures !FilledFirst(o, |MODELS|, ts, NonDisplayedPrint).views.exact.live
    ensures !FilledFirst(o, |MODELS|, ts, NonDisplayedPrint).views.prop.live
  {
    hide FilledFirst;
    FilledAllViews(o, ts, NonDisplayedPrint);
  }

  lemma RankedAfterExpiry(b: Book, o: SyntheticOrder, c: Clock)
    requires Ranked(o, b, c)
    ensures Ranked(ExpiredAll(o), b, c) && Fronted(ExpiredAll(o), b) && Counted(ExpiredAll(o), b)
    ensures Backed(o, b, c) ==> Backed(ExpiredAll(o), b, c)
  {
    hide Depth, Tracks, ExpiredAll, Leads;
    BracketedAfterExpiry(o, c);
    ExpiredAllViews(o);
    LeadsExpired(o.views.exact, o.views.cons, c);
  }

  lemma LeadsExpired(a: ModelState, b: ModelState, c: Clock)
    ensures Leads(a, b, c) ==> Leads(ExpiredState(a), ExpiredState(b), c)
  {
  }

  /** A new order starts with the whole of its level ahead of it, in every view. */
  lemma RankedAtEntry(b: Book, o: SyntheticOrder, c: Clock)
    requires OneOfTwo(o.side) && o.anyLive && o.aheadRefs == Members(Queue(b, KeyAt(o)))
    requires var s := AtEntry(Depth(b, KeyAt(o))); o.views == Views(s, s, s, s, s)
    ensures Ranked(o, b, c) && Fronted(o, b) && Counted(o, b) && Backed(o, b, c)
  {
    hide Tracks;
    TracksWhole(b, KeyAt(o));
  }

  lemma TwoSidesAfterStep(s: State, m: Message)
    requires TwoSides(s.book) && Orderly(s.book, m)
    ensures TwoSides(Step(s, m, false).book)
  {
    hide Observe;
  }

  lemma RankedLater(b: Book, o: SyntheticOrder, c: Clock, ts: u64)
    requires Ranked(o, b, c)
    ensures Ranked(o, b, Later(c, ts)) && (Backed(o, b, c) ==> Backed(o, b, Later(c, ts)))
  {
    hide Tracks;
    SaneLater(o, c, ts);
  }

  // ----- any message -----

  /** Which messages the simulator passes to its book. */
  predicate Forwarded(m: Message) {
    m.SystemEvent? || m.StockDirectory? || m.Add? || m.Reduce? || m.Delete? || m.Replace?
  }

  ghost function BookAfter(s: State, m: Message): State { if Forwarded(m) then Step(s, m, false) else s }

  /** What a message does to one order; b and b' are the book before and after it. An execution or a removal reaches an
      order through the live order it names, a print at the order's price when the rule for it is on. */
  function HeardBy(b: Book, b': Book, m: Message, ts: u64, o: SyntheticOrder, coin: bool,
                   printsFill: bool): SyntheticOrder {
    if m.Trade? then
      if printsFill && o.locate == m.locate then AfterPrint(o, m.price, ts) else o
    else
      var gone := Removal(b, m);
      if gone.None? then o
      else if IsExecution(m) then TouchedByExecution(o, Resolve(b, gone.value.ref), gone.value.qty, ts)
      else AfterCancel(o, Resolve(b, gone.value.ref), gone.value.qty, Depth(b', KeyAt(o)), coin)
  }

  /** An order that is over hears nothing more. */
  lemma OverHearsNothing(b: Book, b': Book, m: Message, ts: u64, o: SyntheticOrder, coin: bool, printsFill: bool)
    requires !o.anyLive
    ensures HeardBy(b, b', m, ts, o, coin, printsFill) == o
  {
    hide AfterExecution, AfterCancel, FilledFirst, Depth;
    if !m.Trade? && Removal(b, m).Some? {
      var g := Removal(b, m).value;
      UntouchedByExecution(o, Resolve(b, g.ref), g.qty, ts);
      UntouchedByCancel(o, Resolve(b, g.ref), g.qty, Depth(b', KeyAt(o)), coin);
    }
  }

  /** Through any message at all the three relations that need no depth are kept. */
  lemma BracketedAfterHearing(b: Book, b': Book, m: Message, ts: u64, o: SyntheticOrder, coin: bool, printsFill: bool,
                              c: Clock)
    requires Bracketed(o.views, c) && Sane(o, c)
    ensures var o' := HeardBy(b, b', m, ts, o, coin, printsFill);
            Bracketed(o'.views, Later(c, ts)) && Sane(o', Later(c, ts))
  {
    hide Bracketed, Sane, AfterExecution, AfterCancel, AfterPrint, Depth;
    SaneBracketedLater(o, c, ts);
    if m.Trade? {
      BracketedAfterPrint(o, m.price, c, ts);
    } else if Removal(b, m).Some? {
      var g := Removal(b, m).value;
      BracketedAfterExecution(o, Resolve(b, g.ref), g.qty, c, ts);
      BracketedAfterCancel(o, Resolve(b, g.ref), g.qty, Depth(b', KeyAt(o)), coin, Later(c, ts));
    }
  }

  lemma SaneBracketedLater(o: SyntheticOrder, c: Clock, ts: u64)
    requires Bracketed(o.views, c) && Sane(o, c)
    ensures Bracketed(o.views, Later(c, ts)) && Sane(o, Later(c, ts))
  {
    BracketedLater(o.views, c, ts);
  }

  /** Through any orderly message an order stays ranked and the references ahead of exact stay the front of the queue.
      Its count stays theirs if the message takes no more than there is; it stays no worse than conservative if orders
      have sizes and an execution takes no more than there is. */
  lemma RankedAfterHearing(s: State, m: Message, ts: u64, o: SyntheticOrder, coin: bool, printsFill: bool, c: Clock)
    requires Ready(s, m) && Ranked(o, s.book, c) && Fronted(o, s.book)
    ensures var b' := BookAfter(s, m).book;
            var o' := HeardBy(s.book, b', m, ts, o, coin, printsFill);
            && Ranked(o', b', Later(c, ts)) && Fronted(o', b')
            && (Counted(o, s.book) && NoOverTake(s.book, m) ==> Counted(o', b'))
            && (Backed(o, s.book, c) && Positive(s.book) && Plain(s.book, m) ==> Backed(o', b', Later(c, ts)))
  {
    hide WellFormed, TwoSides, Orderly, Ranked, Fronted, Counted, Backed, Step, Positive, TouchedByExecution,
      AfterCancel,
         AfterPrint, Depth, NoOverTake;
    RankedLater(s.book, o, c, ts);
    RankedSide(o, s.book, c);
    if m.Trade? {
      RankedAfterPrint(s.book, o, m.price, c, ts);
    } else if Removal(s.book, m).None? {
      RankedOtherwise(s, m, o, c, ts);
      ExactOtherwise(s, m, o, c, ts);
    } else {
      var g := Removal(s.book, m).value;
      if IsExecution(m) {
        RankedAfterExecution(s, m, o, c, ts);
        ExactMovedByExecution(s.book, o, g.ref, g.qty, ts);
        FrontedAfterTaking(s, m, o, TouchedByExecution(o, Resolve(s.book, g.ref), g.qty, ts));
        if Backed(o, s.book, c) && Positive(s.book) && Plain(s.book, m) { BackedAfterExecution(s, m, o, c, ts); }
      } else {
        var after := Depth(Step(s, m, false).book, KeyAt(o));
        RankedAfterRemoval(s, m, o, coin, c, ts);
        ExactMovedByRemoval(s.book, o, g.ref, g.qty, after, coin);
        FrontedAfterTaking(s, m, o, AfterCancel(o, Resolve(s.book, g.ref), g.qty, after, coin));
        if Backed(o, s.book, c) { BackedAfterRemoval(s, m, o, coin, c, ts); }
      }
    }
  }

  lemma RankedSide(o: SyntheticOrder, b: Book, c: Clock)
    requires Ranked(o, b, c)
    ensures OneOfTwo(o.side) && LivesOn(o)
  {
  }

  // ----- where the assumptions matter -----

  /** Adding the removed shares back gives the depth before the message except in two cases: the message takes more than
      is there, or a replacement comes back to the same price. */
  lemma AddedBackIsBefore(s: State, m: Message)
    requires Ready(s, m) && Removal(s.book, m).Some?
    ensures var g := Removal(s.book, m).value;
            var o := s.book.orders[g.ref];
            Depth(Step(s, m, false).book, KeyOf(o)) + g.qty == Depth(s.book, KeyOf(o)) <==>
              g.qty <= o.shares && !(m.Replace? && m.price == o.price && m.shares > 0)
  {
    hide WellFormed, Depth, Erase, Append, Deduct, Observe, TwoSides;
    var g := Removal(s.book, m).value;
    var o := s.book.orders[g.ref];
    var k := KeyOf(o);
    DepthAfterErase(s.book, g.ref, k);
    match m
    case Reduce(_, _, r, qty) => DepthAfterDeduct(s.book, r, Least(qty, o.shares), k);
    case Delete(_, _) =>
    case Replace(_, r, newRef, price, shares) =>
      EraseWellFormed(s.book, r);
      ErasedOrders(s.book, r);
      DepthAfterAppend(Erase(s.book, r), newRef, Order(o.locate, o.side, price, shares), k);
  }

  /** What it means when conservative believes nothing is ahead and an order still tracked ahead is executed: that order
      is of size zero. */
  lemma PartsOnZeroSize(b: Book, o: SyntheticOrder, r: Ref, c: Clock)
    requires WellFormed(b) && Ranked(o, b, c) && Backed(o, b, c)
    requires o.views.exact.live && r in o.aheadRefs && o.views.cons.ahead == 0.0
    ensures r in b.orders && b.orders[r].shares == 0 && KeyOf(b.orders[r]) == KeyAt(o)
  {
    hide WellFormed, Tracks;
    var sum: real :| Tracks(b, KeyAt(o), o.aheadRefs, sum) && sum <= o.views.cons.ahead;
    TrackedAreListed(b, KeyAt(o), o.aheadRefs, sum);
    TrackedHolds(b, KeyAt(o), o.aheadRefs, sum, r);
  }

  /** A message that takes more than an order ahead has leaves exact's count short of what is still ahead, unless
      nothing else is. What it really takes is at most the order's size. */
  lemma OverTakeExactly(b: Book, o: SyntheticOrder, r: Ref, qty: nat)
    requires WellFormed(b) && o.views.exact.live && r in o.aheadRefs && r in b.orders && Counted(o, b)
    ensures var shares := b.orders[r].shares;
            Lowered(o.views.exact, qty as real).ahead == o.views.exact.ahead - Least(qty, shares) as real <==>
              qty <= shares || o.views.exact.ahead == shares as real
  {
    hide WellFormed, Tracks;
    TrackedHolds(b, KeyAt(o), o.aheadRefs, o.views.exact.ahead, r);
  }
}
