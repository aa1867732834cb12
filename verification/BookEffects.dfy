/** What one message does to the orders of the book, and to who comes before whom. */
module BookEffects {
  import opened BookTypes
  import opened BookSpec

  // ----- the orders -----

  /** The order under each reference afterwards: only an add and a replace of a live order put one in, with the symbol
      and side of the order replaced; an execution or a cancel takes shares off one in place, down to none. */
  lemma OrdersAfter(b: Book, m: Message)
    ensures var after := BookStep(b, m).orders;
            match m
            case Add(locate, ref, side, price, shares) => after == b.orders[ref := Order(locate, side, price, shares)]
            case Reduce(_, _, ref, qty) =>
              if ref !in b.orders then after == b.orders
              else if qty < b.orders[ref].shares
              then after == b.orders[ref := b.orders[ref].(shares := b.orders[ref].shares - qty)]
              else after == b.orders - {ref}
            case Delete(_, ref) => after == b.orders - {ref}
            case Replace(_, oldRef, newRef, price, shares) =>
              if oldRef !in b.orders then after == b.orders
              else after == (b.orders - {oldRef})[newRef := Order(b.orders[oldRef].locate, b.orders[oldRef].side, price,
                                                                  shares)]
            case _ => after == b.orders
  {
    hide SetQueue, Without;
  }

  // ----- the queues -----

  /** x waits ahead of y. */
  ghost predicate Before(q: seq<Ref>, x: Ref, y: Ref) { exists i, j :: 0 <= i < j < |q| && q[i] == x && q[j] == y }

  /** The reference a message puts into the book. */
  function Entering(b: Book, m: Message): Option<Ref> {
    if m.Add? then Some(m.ref) else if m.Replace? && m.oldRef in b.orders then Some(m.newRef) else None
  }

  lemma {:induction false} WithoutBefore(q: seq<Ref>, r: Ref, x: Ref, y: Ref)
    requires Before(Without(q, r), x, y)
    ensures Before(q, x, y)
  {
    var left := Without(q, r);
    var i, j :| 0 <= i < j < |left| && left[i] == x && left[j] == y;
    if q[0] == r {
      assert q[i + 1] == x && q[j + 1] == y;
    } else {
      var rest := Without(q[1..], r);
      assert left == [q[0]] + rest;
      if i > 0 {
        assert rest[i - 1] == x && rest[j - 1] == y;
        WithoutBefore(q[1..], r, x, y);
        var k, l :| 0 <= k < l < |q[1..]| && q[1..][k] == x && q[1..][l] == y;
        assert q[k + 1] == x && q[l + 1] == y;
      } else {
        assert rest[j - 1] == y && y in rest;
        WithoutFrom(q[1..], r, y);
        var l :| 0 <= l < |q[1..]| && q[1..][l] == y;
        assert q[0] == x && q[l + 1] == y;
      }
    }
  }

  lemma {:induction false} WithoutFrom(q: seq<Ref>, r: Ref, x: Ref)
    requires x in Without(q, r)
    ensures x in q
  {
    if q != [] && q[0] != r && x != q[0] { WithoutFrom(q[1..], r, x); }
  }

  lemma ErasedBefore(b: Book, r: Ref, k: Key, x: Ref, y: Ref)
    requires r in b.orders && Before(Queue(Erase(b, r), k), x, y)
    ensures Before(Queue(b, k), x, y)
  {
    hide Without, Before;
    var home := KeyOf(b.orders[r]);
    if k == home {
      NothingBefore(x, y);
      WithoutBefore(Queue(b, home), r, x, y);
    }
  }

  lemma NothingBefore(x: Ref, y: Ref)
    ensures !Before([], x, y)
  {
  }

  lemma SparedBefore(b: Book, r: Ref, k: Key, x: Ref, y: Ref)
    requires Before(Queue(Spared(b, r), k), x, y)
    ensures Before(Queue(b, k), x, y)
  {
    hide Erase, Before, Queue;
    if r in b.orders { ErasedBefore(b, r, k, x, y); }
  }

  lemma AppendedBefore(b: Book, r: Ref, o: Order, k: Key, x: Ref, y: Ref)
    requires x != r && y != r && Before(Queue(Append(b, r, o), k), x, y)
    ensures Before(Queue(b, k), x, y)
  {
    var q, q' := Queue(b, k), Queue(Append(b, r, o), k);
    assert q' == q || q' == q + [r];
    var i, j :| 0 <= i < j < |q'| && q'[i] == x && q'[j] == y;
    assert q[i] == x && q[j] == y;
  }

  /** Time priority: no message lets an order pass one that was ahead of it. Whoever is ahead afterwards, of the orders
      that were there, was ahead before. */
  lemma NobodyPasses(b: Book, m: Message, k: Key, x: Ref, y: Ref)
    requires Before(Queue(BookStep(b, m), k), x, y)
    requires Entering(b, m) != Some(x) && Entering(b, m) != Some(y)
    ensures Before(Queue(b, k), x, y)
  {
    hide Before, Queue, Append, Erase, Deduct;
    match m
    case Add(locate, ref, side, price, shares) =>
      AppendedBefore(Spared(b, ref), ref, Order(locate, side, price, shares), k, x, y);
      SparedBefore(b, ref, k, x, y);
    case Reduce(_, _, ref, qty) =>
      if ref in b.orders {
        if qty >= b.orders[ref].shares { ErasedBefore(b, ref, k, x, y); } else { DeductedQueues(b, ref, qty, k); }
      }
    case Delete(_, ref) => SparedBefore(b, ref, k, x, y);
    case Replace(_, oldRef, newRef, price, shares) =>
      if oldRef in b.orders {
        var left := Erase(b, oldRef);
        var o := Order(b.orders[oldRef].locate, b.orders[oldRef].side, price, shares);
        AppendedBefore(Spared(left, newRef), newRef, o, k, x, y);
        SparedBefore(left, newRef, k, x, y);
        ErasedBefore(b, oldRef, k, x, y);
      }
    case _ =>
  }

  lemma DeductedQueues(b: Book, r: Ref, taken: Shares, k: Key)
    requires r in b.orders && taken <= b.orders[r].shares
    ensures Queue(Deduct(b, r, taken), k) == Queue(b, k)
  {
  }

  /** And whoever comes in, comes in last: at the back of the queue of its price, even by a replace at its own. */
  lemma JoinsTheBack(b: Book, m: Message)
    requires Entering(b, m).Some?
    ensures var b', r := BookStep(b, m), Entering(b, m).value;
            && r in b'.orders
            && var q := Queue(b', KeyOf(b'.orders[r])); q != [] && q[|q| - 1] == r
  {
    hide Erase;
    if m.Add? {
      LastAppended(Spared(b, m.ref), m.ref, Order(m.locate, m.side, m.price, m.shares));
    } else {
      var prior := b.orders[m.oldRef];
      LastAppended(Spared(Erase(b, m.oldRef), m.newRef), m.newRef, Order(prior.locate, prior.side, m.price, m.shares));
    }
  }

  lemma LastAppended(b: Book, r: Ref, o: Order)
    ensures var b' := Append(b, r, o);
            r in b'.orders && b'.orders[r] == o && var q := Queue(b', KeyOf(o)); q != [] && q[|q| - 1] == r
  {
  }
}
