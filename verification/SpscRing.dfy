/** The single-producer single-consumer ring, as the interleaving of two programs' atomic steps. */
module SpscRings {
  import opened Bits

  /** An index is a machine word: it wraps. */
  function Wrap(x: nat): nat { x % Pow2(64) }

  function Minus(a: nat, b: nat): nat
    requires IsWord(a) && IsWord(b)
  {
    if a >= b then a - b else a + Pow2(64) - b
  }

  /** The distance between two wrapped counts is exact while it is less than the word's range. */
  lemma MinusExact(x: nat, y: nat)
    requires y <= x < y + Pow2(64)
    ensures IsWord(Wrap(x)) && IsWord(Wrap(y)) && Minus(Wrap(x), Wrap(y)) == x - y
  {
    hide Pow2;
    var m := Pow2(64);
    var q, r := y / m, y % m;
    DividedBy(y, m);
    if r + (x - y) < m {
      ModIs(x, m, q, r + (x - y));
    } else {
      Regroup(q, m, r, x - y);
      ModIs(x, m, q + 1, r + (x - y) - m);
    }
  }

  lemma Regroup(q: nat, m: nat, r: nat, d: nat)
    requires r + d >= m
    ensures q * m + r + d == (q + 1) * m + (r + d - m)
  {
  }

  lemma WrapNext(x: nat)
    ensures Wrap(x + 1) == Wrap(Wrap(x) + 1)
  {
    hide Pow2;
    var m := Pow2(64);
    DividedBy(x, m);
    ModOfSum(x / m, m, x % m, 1);
  }

  lemma ModOfSum(q: nat, m: nat, r: nat, d: nat)
    requires m > 0
    ensures (q * m + r + d) % m == (r + d) % m
  {
    DividedBy(r + d, m);
    var k, s := (r + d) / m, (r + d) % m;
    Collect(q, k, m, s);
    ModIs(q * m + r + d, m, q + k, s);
  }

  lemma Collect(q: nat, k: nat, m: nat, s: nat)
    ensures q * m + (k * m + s) == (q + k) * m + s
  {
  }

  lemma {:induction false} Pow2Sum(a: nat, b: nat)
    ensures Pow2(a + b) == Pow2(a) * Pow2(b)
  {
    if a > 0 { Pow2Sum(a - 1, b); }
  }

  /** Masking a wrapped index gives the slot of the unwrapped one, because the capacity divides the word's range. */
  lemma SlotOfWrapped(x: nat, k: nat)
    requires k <= 64
    ensures And(Wrap(x), Pow2(k) - 1) == SlotOf(x, Pow2(k))
  {
    hide Pow2;
    AndMask(Wrap(x), k);
    Pow2Sum(64 - k, k);
    ModOfMod(x, Pow2(64 - k), Pow2(k));
  }

  lemma ModOfMod(x: nat, c: nat, p: nat)
    requires c > 0 && p > 0
    ensures c * p > 0 && (x % (c * p)) % p == x % p
  {
    Times(c, p);
    var q, r := x / (c * p), x % (c * p);
    DividedBy(x, c * p);
    DividedBy(r, p);
    Factor(q, c, p, r / p, r % p);
    ModIs(x, p, q * c + r / p, r % p);
  }

  lemma Times(c: nat, p: nat)
    requires c > 0 && p > 0
    ensures c * p > 0
  {
  }

  lemma Factor(q: nat, c: nat, p: nat, s: nat, t: nat)
    ensures q * (c * p) + (s * p + t) == (q * c + s) * p + t
  {
    assert q * (c * p) == (q * c) * p;
  }

  /** Counts less than a capacity apart have different slots. */
  lemma SlotsDiffer(i: nat, j: nat, n: nat)
    requires n > 0 && i < j < i + n
    ensures SlotOf(i, n) != SlotOf(j, n)
  {
    DividedBy(i, n);
    DividedBy(j, n);
    Apart(j / n, i / n, n);
  }

  lemma Apart(a: nat, b: nat, n: nat)
    ensures a * n <= b * n || a * n - b * n >= n
  {
    if a <= b { Grows(a, b, n); } else { Grows(b + 1, a, n); }
  }

  lemma Grows(a: nat, b: nat, n: nat)
    requires a <= b
    ensures a * n <= b * n && (a >= 1 ==> (a - 1) * n == a * n - n)
  {
  }

  /** The slot of the i-th item. */
  function SlotOf(i: nat, n: nat): (s: nat)
    requires n > 0
    ensures s < n
  {
    i % n
  }

  /** Item i of what has been pushed is still in its place in the buffer. */
  ghost predicate Held<T>(b: seq<T>, pushed: seq<T>, i: nat) {
    0 < |b| && i < |pushed| && b[SlotOf(i, |b|)] == pushed[i]
  }

  /** Writing the next slot disturbs nothing that is held. */
  lemma HeldAfterWrite<T>(b: seq<T>, b': seq<T>, pushed: seq<T>, from: nat, v: T)
    requires 0 < |b| && from <= |pushed| < from + |b| && forall i: nat :: from <= i < |pushed| ==> Held(b, pushed, i)
    requires b' == b[SlotOf(|pushed|, |b|) := v]
    ensures forall i: nat :: from <= i < |pushed| ==> Held(b', pushed, i)
    ensures forall i: nat :: from <= i < |pushed| ==> SlotOf(i, |b|) != SlotOf(|pushed|, |b|)
  {
    hide SlotOf;
    forall i: nat | from <= i < |pushed| ensures Held(b', pushed, i) && SlotOf(i, |b|) != SlotOf(|pushed|, |b|) {
      assert Held(b, pushed, i);
      SlotsDiffer(i, |pushed|, |b|);
    }
  }

  lemma HeldAfterPublish<T>(b: seq<T>, pushed: seq<T>, from: nat, v: T)
    requires 0 < |b| && forall i: nat :: from <= i < |pushed| ==> Held(b, pushed, i)
    requires b[SlotOf(|pushed|, |b|)] == v
    ensures forall i: nat :: from <= i < |pushed| + 1 ==> Held(b, pushed + [v], i)
  {
    var longer := pushed + [v];
    forall i: nat | from <= i < |pushed| + 1 ensures Held(b, longer, i) {
      assert i < |pushed| ==> Held(b, pushed, i);
    }
  }

  lemma SameWord(x: nat, y: nat)
    requires y <= x < y + Pow2(64)
    ensures Wrap(x) == Wrap(y) <==> x == y
  {
    hide Pow2, Wrap;
    MinusExact(x, y);
  }

  datatype ProducerAt = Idle | Checking | Ready | Written

  datatype ConsumerAt = Waiting | Looking | Free | Taken

  // ----- the ring as a queue -----

  /** The two programs over unbounded counts: what was asked for, published and taken, and the counts each side last saw
      of the other. There are no slots and no indices. */
  datatype Ideal<Item> = Ideal(producer: ProducerAt, consumer: ConsumerAt, asked: seq<Item>, pushed: seq<Item>,
                               popped: seq<Item>, seenTail: nat, seenHead: nat)

  /** The producer's next step with room for n items; it offers `item` next if it is idle. */
  function ProducerStep<Item>(s: Ideal<Item>, item: Item, n: nat): Ideal<Item> {
    match s.producer
    case Idle => s.(producer := Checking, asked := s.asked + [item])
    case Checking => if |s.pushed| - s.seenTail < n then s.(producer := Ready) else s.(seenTail := |s.popped|)
    case Ready => s.(producer := Written)
    case Written => s.(producer := Idle, pushed := s.asked)
  }

  function ConsumerStep<Item>(s: Ideal<Item>): Ideal<Item> {
    match s.consumer
    case Waiting => s.(consumer := Looking)
    case Looking => if |s.popped| < s.seenHead then s.(consumer := Free) else s.(seenHead := |s.pushed|)
    case Free => s.(consumer := Taken)
    case Taken => if |s.popped| < |s.asked| then s.(consumer := Waiting, popped := s.asked[..|s.popped| + 1]) else s
  }

  /** The state after an interleaving: `true` lets the producer move. */
  function Interleaved<Item>(s: Ideal<Item>, schedule: seq<bool>, items: seq<Item>, n: nat): Ideal<Item>
    requires |items| == |schedule|
  {
    if schedule == [] then s
    else
      var k := |schedule| - 1;
      var s' := Interleaved(s, schedule[..k], items[..k], n);
      if schedule[k] then ProducerStep(s', items[k], n) else ConsumerStep(s')
  }

  /** Taken is a prefix of published, published of asked, and no more than n are in between. */
  ghost predicate IsQueue<Item>(s: Ideal<Item>, n: nat) {
    && s.popped <= s.pushed <= s.asked && |s.asked| == |s.pushed| + (if s.producer == Idle then 0 else 1)
    && s.seenTail <= |s.popped| <= s.seenHead <= |s.pushed| <= s.seenTail + n
    && (s.producer == Ready || s.producer == Written ==> |s.pushed| < s.seenTail + n)
    && (s.consumer == Free || s.consumer == Taken ==> |s.popped| < s.seenHead)
  }

  lemma ProducerKeeps<Item>(s: Ideal<Item>, item: Item, n: nat)
    requires IsQueue(s, n)
    ensures var s' := ProducerStep(s, item, n); IsQueue(s', n) && s.pushed <= s'.pushed && s'.popped == s.popped
  {
  }

  lemma ConsumerKeeps<Item>(s: Ideal<Item>, n: nat)
    requires IsQueue(s, n)
    ensures var s' := ConsumerStep(s); IsQueue(s', n) && s.popped <= s'.popped && s'.pushed == s.pushed
  {
  }

  /** Every interleaving of the two programs is a queue. */
  lemma {:induction false} EveryInterleavingIsAQueue<Item>(s: Ideal<Item>, schedule: seq<bool>, items: seq<Item>,
                                                           n: nat)
    requires IsQueue(s, n) && |items| == |schedule|
    ensures var s' := Interleaved(s, schedule, items, n);
            IsQueue(s', n) && s.pushed <= s'.pushed && s.popped <= s'.popped && |s'.pushed| - |s'.popped| <= n
  {
    hide IsQueue, ProducerStep, ConsumerStep;
    if schedule != [] {
      var k := |schedule| - 1;
      var s' := Interleaved(s, schedule[..k], items[..k], n);
      EveryInterleavingIsAQueue(s, schedule[..k], items[..k], n);
      if schedule[k] { ProducerKeeps(s', items[k], n); } else { ConsumerKeeps(s', n); }
      HoldsAtMost(Interleaved(s, schedule, items, n), n);
    } else {
      HoldsAtMost(s, n);
    }
  }

  lemma HoldsAtMost<Item>(s: Ideal<Item>, n: nat)
    requires IsQueue(s, n)
    ensures |s.pushed| - |s.popped| <= n
  {
  }

  /** With an item in the ring the consumer alone takes one within five of its steps, and with room in it the producer
      alone publishes one within five of its own: neither waits for the other to be scheduled. */
  lemma FiveStepsAreEnough<Item>(s: Ideal<Item>, items: seq<Item>, n: nat)
    requires IsQueue(s, n) && |items| == 5
    ensures |s.popped| < |s.pushed|
            ==> |Interleaved(s, [false, false, false, false, false], items, n).popped| > |s.popped|
    ensures |s.pushed| - |s.popped| < n
            ==> |Interleaved(s, [true, true, true, true, true], items, n).pushed| > |s.pushed|
  {
    hide IsQueue, ProducerStep, ConsumerStep;
    Unrolled(s, [false, false, false, false, false], items, n);
    Unrolled(s, [true, true, true, true, true], items, n);
    if |s.popped| < |s.pushed| { FiveTakes(s, n); }
    if |s.pushed| - |s.popped| < n { FivePushes(s, items, n); }
  }

  function Moved<Item>(s: Ideal<Item>, turn: bool, item: Item, n: nat): Ideal<Item> {
    if turn then ProducerStep(s, item, n) else ConsumerStep(s)
  }

  lemma Unrolled<Item>(s: Ideal<Item>, schedule: seq<bool>, items: seq<Item>, n: nat)
    requires |items| == |schedule| == 5
    ensures Interleaved(s, schedule, items, n) ==
              Moved(Moved(Moved(Moved(Moved(s, schedule[0], items[0], n), schedule[1], items[1], n), schedule[2],
                  items[2], n),
                          schedule[3], items[3], n), schedule[4], items[4], n)
  {
    hide ProducerStep, ConsumerStep;
    OneMore(s, schedule, items, n, 0);
    OneMore(s, schedule, items, n, 1);
    OneMore(s, schedule, items, n, 2);
    OneMore(s, schedule, items, n, 3);
    OneMore(s, schedule, items, n, 4);
    assert schedule[..5] == schedule && items[..5] == items && schedule[..0] == [] && items[..0] == [];
  }

  lemma OneMore<Item>(s: Ideal<Item>, schedule: seq<bool>, items: seq<Item>, n: nat, k: nat)
    requires |items| == |schedule| && k < |schedule|
    ensures Interleaved(s, schedule[..k + 1], items[..k + 1], n) ==
              Moved(Interleaved(s, schedule[..k], items[..k], n), schedule[k], items[k], n)
  {
    assert schedule[..k + 1][..k] == schedule[..k] && items[..k + 1][..k] == items[..k];
  }

  lemma FiveTakes<Item>(s: Ideal<Item>, n: nat)
    requires IsQueue(s, n) && |s.popped| < |s.pushed|
    ensures |ConsumerStep(ConsumerStep(ConsumerStep(ConsumerStep(ConsumerStep(s))))).popped| > |s.popped|
  {
  }

  lemma FivePushes<Item>(s: Ideal<Item>, items: seq<Item>, n: nat)
    requires IsQueue(s, n) && |s.pushed| - |s.popped| < n && |items| == 5
    ensures |ProducerStep(ProducerStep(ProducerStep(ProducerStep(ProducerStep(s, items[0], n), items[1], n), items[2],
            n),
                                       items[3], n), items[4], n).pushed| > |s.pushed|
  {
  }

  class SpscRing<Item(0)> {
    const shift: nat
    const buf: array<Item>
    var head: nat
    var tail: nat
    var tailCache: nat
    var headCache: nat
    // Where each program is, and its local variables.
    var producer: ProducerAt
    var h: nat
    var v: Item
    var consumer: ConsumerAt
    var t: nat
    var out: Item
    /** Everything published, everything taken, and the counts the caches stand for. */
    ghost var pushed: seq<Item>
    ghost var popped: seq<Item>
    ghost var seenTail: nat
    ghost var seenHead: nat
    /** Every item the producer has been asked to push. */
    ghost var asked: seq<Item>

    ghost function Capacity(): (n: nat)
      ensures n > 0
    {
      Pow2(shift)
    }

    /** The counts: nothing is taken before it is published, and never more than the capacity is held. */
    ghost predicate Counts()
      reads this
    {
      && head == Wrap(|pushed|) && tail == Wrap(|popped|) && tailCache == Wrap(seenTail) && headCache == Wrap(seenHead)
      && seenTail <= |popped| <= seenHead <= |pushed| <= seenTail + Capacity()
    }

    ghost predicate Valid()
      reads this, buf
    {
      && 1 <= shift < 64 && buf.Length == Capacity() && Counts() && popped == pushed[..|popped|]
      && asked == (if producer == Idle then pushed else pushed + [v])
      && (forall i: nat :: |popped| <= i < |pushed| ==> Held(buf[..], pushed, i))
      && (producer != Idle ==> h == head)
      && (producer == Ready || producer == Written ==> |pushed| < seenTail + Capacity())
      && (producer == Written ==> buf[SlotOf(|pushed|, Capacity())] == v)
      && (consumer != Waiting ==> t == tail)
      && (consumer == Free || consumer == Taken ==> |popped| < seenHead)
      && (consumer == Taken ==> out == pushed[|popped|])
    }

    /** The queue the ring stands for. */
    ghost function Queue(): Ideal<Item>
      reads this
    {
      Ideal(producer, consumer, asked, pushed, popped, seenTail, seenHead)
    }

    lemma IsAQueue()
      requires Valid()
      ensures IsQueue(Queue(), Capacity())
    {
      hide Pow2, Wrap, SlotOf;
    }

    constructor (shift: nat, blank: Item)
      requires 1 <= shift < 64
      ensures Queue() == Ideal(Idle, Waiting, [], [], [], 0, 0)
      ensures Valid() && pushed == [] && popped == [] && producer == Idle && consumer == Waiting && this.shift == shift
    {
      hide Pow2;
      this.shift := shift;
      buf := new Item[Pow2(shift)](_ => blank);
      head, tail, tailCache, headCache, h, t := 0, 0, 0, 0, 0, 0;
      producer, consumer, v, out := Idle, Waiting, blank, blank;
      pushed, popped, seenTail, seenHead, asked := [], [], 0, 0, [];
      new;
      ZeroWraps();
    }

    lemma ZeroWraps()
      ensures Wrap(0) == 0
    {
    }

    // ----- the producer's steps -----

    method BeginPush(item: Item)
      requires Valid() && producer == Idle
      modifies `producer, `h, `v, `asked
      ensures Valid() && producer == Checking && v == item && asked == old(asked) + [item]
    {
      hide Pow2, Wrap, SlotOf;
      producer, h, v, asked := Checking, head, item, asked + [item];
    }

    /** One turn of the spin: either the ring looks full and the cached tail is refreshed, or there is room. */
    method CheckRoom()
      requires Valid() && producer == Checking
      modifies `producer, `tailCache, `seenTail
      ensures Valid()
      ensures producer == if |pushed| - old(seenTail) < Capacity() then Ready else Checking
      ensures seenTail == if producer == Ready then old(seenTail) else |popped|
    {
      hide Pow2, Wrap, SlotOf, Minus, And;
      CapacityFits();
      MinusExact(|pushed|, seenTail);
      LengthIs();
      if Minus(h, tailCache) >= buf.Length {
        tailCache, seenTail := tail, |popped|;
      } else {
        producer := Ready;
      }
    }

    lemma CapacityFits()
      requires 1 <= shift < 64
      ensures 2 * Capacity() <= Pow2(64) && Capacity() > 0
    {
      Pow2Monotone(shift, 64);
    }

    lemma LengthIs()
      requires Valid()
      ensures buf.Length == Capacity()
    {
    }

    /** The write of the slot. Nothing unread is in it. */
    method WriteSlot()
      requires Valid() && producer == Ready
      modifies `producer, buf
      ensures Valid() && producer == Written
      ensures forall i: nat :: |popped| <= i < |pushed| ==> SlotOf(i, Capacity()) != SlotOf(|pushed|, Capacity())
      ensures buf[..] == old(buf[..])[SlotOf(|pushed|, Capacity()) := v]
    {
      hide Pow2, Wrap, SlotOf, Minus, And;
      SlotOfWrapped(|pushed|, shift);
      var slot := And(h, buf.Length - 1);
      ghost var b := buf[..];
      buf[slot] := v;
      assert buf[..] == b[SlotOf(|pushed|, |b|) := v];
      HeldAfterWrite(b, buf[..], pushed, |popped|, v);
      producer := Written;
    }

    method PublishHead()
      requires Valid() && producer == Written
      modifies `producer, `head, `pushed
      ensures Valid() && producer == Idle && pushed == old(pushed) + [v]
    {
      hide Pow2, Wrap, SlotOf, Minus, And;
      WrapNext(|pushed|);
      HeldAfterPublish(buf[..], pushed, |popped|, v);
      head := Wrap(h + 1);
      pushed := pushed + [v];
      producer := Idle;
    }

    // ----- the consumer's steps -----

    method BeginPop()
      requires Valid() && consumer == Waiting
      modifies `consumer, `t
      ensures Valid() && consumer == Looking
    {
      hide Pow2, Wrap, SlotOf;
      consumer, t := Looking, tail;
    }

    /** One turn of the spin: either the ring looks empty and the cached head is refreshed, or there is an item. */
    method CheckItem()
      requires Valid() && consumer == Looking
      modifies `consumer, `headCache, `seenHead
      ensures Valid()
      ensures consumer == if |popped| < old(seenHead) then Free else Looking
      ensures seenHead == if consumer == Free then old(seenHead) else |pushed|
    {
      hide Pow2, Wrap, SlotOf, Minus, And;
      CapacityFits();
      SameWord(seenHead, |popped|);
      if t == headCache {
        headCache, seenHead := head, |pushed|;
      } else {
        consumer := Free;
      }
    }

    method ReadSlot()
      requires Valid() && consumer == Free
      modifies `consumer, `out
      ensures Valid() && consumer == Taken && out == pushed[|popped|]
    {
      hide Pow2, Wrap, SlotOf, Minus, And;
      SlotOfWrapped(|popped|, shift);
      assert Held(buf[..], pushed, |popped|);
      out := buf[And(t, buf.Length - 1)];
      consumer := Taken;
    }

    method PublishTail()
      requires Valid() && consumer == Taken
      modifies `consumer, `tail, `popped
      ensures Valid() && consumer == Waiting && popped == old(popped) + [out]
    {
      hide Pow2, Wrap, SlotOf, Minus, And;
      WrapNext(|popped|);
      tail := Wrap(t + 1);
      popped := popped + [out];
      consumer := Waiting;
    }

    // ----- whole runs -----

    /** The producer's next step; it pushes `item` next if it is idle. */
    method StepProducer(item: Item)
      requires Valid()
      modifies `producer, `h, `v, `asked, `tailCache, `seenTail, `head, `pushed, buf
      ensures Valid() && Queue() == ProducerStep(old(Queue()), item, Capacity())
    {
      hide Pow2, Wrap, SlotOf, Minus, And;
      match producer
      case Idle => BeginPush(item);
      case Checking => CheckRoom();
      case Ready => WriteSlot();
      case Written => PublishHead();
    }

    method StepConsumer()
      requires Valid()
      modifies `consumer, `t, `headCache, `seenHead, `out, `tail, `popped
      ensures Valid() && Queue() == ConsumerStep(old(Queue()))
    {
      hide Pow2, Wrap, SlotOf, Minus, And;
      match consumer
      case Waiting => BeginPop();
      case Looking => CheckItem();
      case Free => ReadSlot();
      case Taken => PublishTail();
    }

    /** Any interleaving of the two programs does to the ring what it does to the queue. */
    method Run(schedule: seq<bool>, items: seq<Item>)
      requires Valid() && |items| == |schedule|
      modifies this, buf
      ensures Valid() && Queue() == Interleaved(old(Queue()), schedule, items, Capacity())
      ensures old(pushed) <= pushed && old(popped) <= popped <= pushed <= asked && |pushed| - |popped| <= buf.Length
    {
      hide Valid, ProducerStep, ConsumerStep, IsQueue, Pow2;
      var n := 0;
      assert schedule[..0] == [] && items[..0] == [];
      IsAQueue();
      while n < |schedule|
        invariant n <= |schedule| && Valid()
        invariant Queue() == Interleaved(old(Queue()), schedule[..n], items[..n], Capacity())
      {
        OneMore(old(Queue()), schedule, items, Capacity(), n);
        if schedule[n] { StepProducer(items[n]); } else { StepConsumer(); }
        n := n + 1;
      }
      assert schedule[..n] == schedule && items[..n] == items;
      EveryInterleavingIsAQueue(old(Queue()), schedule, items, Capacity());
      Prefixes(Queue(), Capacity());
      LengthIs();
    }
  }

  lemma Prefixes<Item>(s: Ideal<Item>, n: nat)
    requires IsQueue(s, n)
    ensures s.popped <= s.pushed <= s.asked
  {
  }
}
