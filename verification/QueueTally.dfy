/** The accounts of the five models: what was placed, what filled and why, broken down four ways. */
module QueueTallies {
  import opened BookTypes
  import opened QueueModels

  const DEPTH_EDGES: seq<nat> := [0, 100, 500, 2000, 10000, 50000]
  const AHEAD_EDGES: seq<nat> :=
    [0, 1, 50, 100, 200, 300, 500, 800, 1200, 2000, 3000, 5000, 8000, 12000, 20000, 35000, 60000, 100000]

  /** Edges start at nothing and rise. */
  ghost predicate Rising(edges: seq<nat>) {
    |edges| > 0 && edges[0] == 0 && forall i :: 0 <= i < |edges| - 1 ==> edges[i] < edges[i + 1]
  }

  /** The bucket a count falls in: the last whose edge it has reached. */
  function Bucket(edges: seq<nat>, ahead: nat, i: nat): (b: nat)
    requires i < |edges| && edges[i] <= ahead
    ensures i <= b < |edges| && edges[b] <= ahead
    ensures b == |edges| - 1 || ahead < edges[b + 1]
    decreases |edges| - i
  {
    if i + 1 < |edges| && ahead >= edges[i + 1] then Bucket(edges, ahead, i + 1) else i
  }

  function DepthBucket(ahead: nat): nat { Bucket(DEPTH_EDGES, ahead, 0) }

  function AheadGrid(ahead: nat): nat { Bucket(AHEAD_EDGES, ahead, 0) }

  lemma BothRise()
    ensures Rising(DEPTH_EDGES) && Rising(AHEAD_EDGES)
  {
  }

  lemma {:induction false} EdgesRise(edges: seq<nat>, i: nat, j: nat)
    requires Rising(edges) && i < j < |edges|
    ensures edges[i] < edges[j]
    decreases j
  {
    if i < j - 1 { EdgesRise(edges, i, j - 1); }
  }

  /** Each count is in exactly one bucket of either table: from its bucket's edge on, and short of the next one. */
  lemma BucketsPartition(ahead: nat, b: nat)
    ensures b < |DEPTH_EDGES| ==>
              (b == DepthBucket(ahead) <==>
                  DEPTH_EDGES[b] <= ahead && (b == |DEPTH_EDGES| - 1 || ahead < DEPTH_EDGES[b + 1]))
    ensures b < |AHEAD_EDGES| ==>
              (b == AheadGrid(ahead) <==>
                  AHEAD_EDGES[b] <= ahead && (b == |AHEAD_EDGES| - 1 || ahead < AHEAD_EDGES[b + 1]))
  {
    BothRise();
    if b < |DEPTH_EDGES| { OneBucket(DEPTH_EDGES, ahead, b); }
    if b < |AHEAD_EDGES| { OneBucket(AHEAD_EDGES, ahead, b); }
  }

  lemma OneBucket(edges: seq<nat>, ahead: nat, b: nat)
    requires Rising(edges) && b < |edges|
    ensures b == Bucket(edges, ahead, 0) <==> edges[b] <= ahead && (b == |edges| - 1 || ahead < edges[b + 1])
  {
    var c := Bucket(edges, ahead, 0);
    if b < c {
      if b + 1 < c { EdgesRise(edges, b + 1, c); }
    } else if c < b {
      if c + 1 < b { EdgesRise(edges, c + 1, b); }
    }
  }

  /** A larger count is never in an earlier bucket. */
  lemma {:induction false} BucketRises(edges: seq<nat>, x: nat, y: nat, i: nat)
    requires i < |edges| && edges[i] <= x <= y
    ensures Bucket(edges, x, i) <= Bucket(edges, y, i)
    decreases |edges| - i
  {
    if i + 1 < |edges| && x >= edges[i + 1] { BucketRises(edges, x, y, i + 1); }
  }

  /** Two buckets a decade from a millisecond. */
  function FillTimeBucket(ns: u64): nat { FillTimeFrom(ns, 1000000.0, 0) }

  function FillTimeFrom(ns: u64, edge: real, i: nat): (b: nat)
    requires i < 12
    ensures b < 12
    decreases 12 - i
  {
    if i + 1 < 12 && ns as real >= edge * 3.1622776601683795 then FillTimeFrom(ns, edge * 3.1622776601683795, i + 1)
        else i
  }

  /** Where bucket i begins, but for the first. */
  function Edge(i: nat): real { if i == 0 then 1000000.0 else Edge(i - 1) * 3.1622776601683795 }

  lemma {:induction false} TimeEdgesRise(i: nat, j: nat)
    requires i < j
    ensures 0.0 < Edge(i) < Edge(j)
    decreases j
  {
    if i < j - 1 { TimeEdgesRise(i, j - 1); } else { PositiveEdge(i); }
    PositiveEdge(j - 1);
  }

  lemma {:induction false} PositiveEdge(i: nat)
    ensures 0.0 < Edge(i)
  {
    if i > 0 { PositiveEdge(i - 1); }
  }

  lemma {:induction false} FillTimeFound(ns: u64, i: nat)
    requires i < 12 && (i == 0 || ns as real >= Edge(i))
    ensures var b := FillTimeFrom(ns, Edge(i), i);
            (b == 0 || ns as real >= Edge(b)) && (b == 11 || (ns as real) < Edge(b + 1))
    decreases 12 - i
  {
    hide FillTimeFrom;
    NextEdge(ns, i);
    if i + 1 < 12 && ns as real >= Edge(i + 1) { FillTimeFound(ns, i + 1); }
  }

  lemma NextEdge(ns: u64, i: nat)
    requires i < 12
    ensures FillTimeFrom(ns, Edge(i), i) ==
              if i + 1 < 12 && ns as real >= Edge(i + 1) then FillTimeFrom(ns, Edge(i + 1), i + 1) else i
  {
    assert Edge(i + 1) == Edge(i) * 3.1622776601683795;
  }

  /** Each time is in exactly one bucket: from its edge on, unless it is the first, and short of the next one, unless it
      is the last; and two buckets make a decade, to fourteen places. */
  lemma FillTimesPartition(ns: u64, b: nat)
    requires b < 12
    ensures b == FillTimeBucket(ns) <==> (b == 0 || ns as real >= Edge(b)) && (b == 11 || (ns as real) < Edge(b + 1))
    ensures Edge(0) == 1000000.0 && Edge(b) * 10.0 < Edge(b + 2) < Edge(b) * 10.00000000000001
  {
    var c := FillTimeBucket(ns);
    FillTimeFound(ns, 0);
    if b < c {
      if b + 1 < c { TimeEdgesRise(b + 1, c); }
    } else if c < b {
      if c + 1 < b { TimeEdgesRise(c + 1, b); }
    }
    PositiveEdge(b);
    Decade(Edge(b), Edge(b + 1), Edge(b + 2));
  }

  lemma Decade(x: real, y: real, z: real)
    requires 0.0 < x && y == x * 3.1622776601683795 && z == y * 3.1622776601683795
    ensures x * 10.0 < z < x * 10.00000000000001
  {
  }

  /** Unsigned subtraction wraps. */
  function Since(ts: u64, t: u64): u64 { if ts >= t then ts - t else ts - t + 0x1_0000_0000_0000_0000 }

  /** A table of counters is the multiset of the keys it has counted. */
  datatype Table<K> = Table(placed: multiset<K>, filled: multiset<K>)

  datatype ModelResults = ModelResults(
    placed: nat, filled: nat, bySymbol: Table<Locate>, byDepth: Table<nat>, byAhead: Table<nat>,
    bySymbolAhead: Table<(Locate, nat)>, reasons: multiset<FillReason>, timeToFill: multiset<nat>)

  const NO_RESULTS := ModelResults(0, 0, Table(multiset{}, multiset{}), Table(multiset{}, multiset{}),
                                   Table(multiset{}, multiset{}), Table(multiset{}, multiset{}), multiset{}, multiset{})

  function SymbolKey(o: SyntheticOrder): Locate { o.locate }

  function DepthKey(o: SyntheticOrder): nat { DepthBucket(o.depth) }

  function AheadKey(o: SyntheticOrder): nat { AheadGrid(o.depth) }

  function SymbolAheadKey(o: SyntheticOrder): (Locate, nat) { (o.locate, AheadGrid(o.depth)) }

  function Placing<K(==)>(t: Table<K>, k: K): Table<K> { t.(placed := t.placed + multiset{k}) }

  function Filling<K(==)>(t: Table<K>, k: K): Table<K> { t.(filled := t.filled + multiset{k}) }

  function CountPlaced(r: ModelResults, o: SyntheticOrder): ModelResults {
    r.(placed := r.placed + 1, bySymbol := Placing(r.bySymbol, SymbolKey(o)),
      byDepth := Placing(r.byDepth, DepthKey(o)),
       byAhead := Placing(r.byAhead, AheadKey(o)), bySymbolAhead := Placing(r.bySymbolAhead, SymbolAheadKey(o)))
  }

  function CountFilled(r: ModelResults, o: SyntheticOrder, ts: u64, why: FillReason): ModelResults {
    r.(filled := r.filled + 1, bySymbol := Filling(r.bySymbol, SymbolKey(o)),
      byDepth := Filling(r.byDepth, DepthKey(o)),
       byAhead := Filling(r.byAhead, AheadKey(o)), bySymbolAhead := Filling(r.bySymbolAhead, SymbolAheadKey(o)),
       reasons := r.reasons + multiset{why},
         timeToFill := r.timeToFill + multiset{FillTimeBucket(Since(ts, o.entered))})
  }

  /** A fill is counted under the order's symbol, under the buckets its depth at entry falls in, for its reason, and in
      the bucket of the time since it entered; where each is, is said by edges alone. */
  lemma FillIsCounted(r: ModelResults, o: SyntheticOrder, ts: u64, why: FillReason, d: nat, a: nat, t: nat)
    requires o.entered <= ts && d < |DEPTH_EDGES| && a < |AHEAD_EDGES| && t < 12
    requires DEPTH_EDGES[d] <= o.depth && (d == |DEPTH_EDGES| - 1 || o.depth < DEPTH_EDGES[d + 1])
    requires AHEAD_EDGES[a] <= o.depth && (a == |AHEAD_EDGES| - 1 || o.depth < AHEAD_EDGES[a + 1])
    requires var ns := (ts - o.entered) as real; (t == 0 || ns >= Edge(t)) && (t == 11 || ns < Edge(t + 1))
    ensures var r' := CountFilled(r, o, ts, why);
            && r'.placed == r.placed && r'.filled == r.filled + 1
            && r'.bySymbol == r.bySymbol.(filled := r.bySymbol.filled + multiset{o.locate})
            && r'.byDepth == r.byDepth.(filled := r.byDepth.filled + multiset{d})
            && r'.byAhead == r.byAhead.(filled := r.byAhead.filled + multiset{a})
            && r'.bySymbolAhead == r.bySymbolAhead.(filled := r.bySymbolAhead.filled + multiset{(o.locate, a)})
            && r'.reasons == r.reasons + multiset{why} && r'.timeToFill == r.timeToFill + multiset{t}
  {
    hide DepthBucket, AheadGrid, FillTimeBucket;
    BucketsPartition(o.depth, d);
    BucketsPartition(o.depth, a);
    FillTimesPartition(ts - o.entered, t);
  }

  function CountExpired(r: ModelResults): ModelResults { r.(reasons := r.reasons + multiset{Expired}) }

  // ----- what the accounts add up to -----

  ghost function One<K>(o: SyntheticOrder, m: QueueModel, key: SyntheticOrder -> K): multiset<K> {
    if LiveIn(o, m) then multiset{key(o)} else multiset{}
  }

  /** The keys of the orders still live under a model. */
  ghost function LiveKeys<K>(live: seq<SyntheticOrder>, m: QueueModel, key: SyntheticOrder -> K): multiset<K> {
    if live == [] then multiset{} else LiveKeys(live[..|live| - 1], m, key) + One(live[|live| - 1], m, key)
  }

  function FilledIn(o: SyntheticOrder, m: QueueModel): bool { View(o.views, m).filled }

  /** How many of the orders have filled under a model. */
  ghost function FilledCount(live: seq<SyntheticOrder>, m: QueueModel): nat {
    if live == [] then 0 else FilledCount(live[..|live| - 1], m) + if FilledIn(live[|live| - 1], m) then 1 else 0
  }

  /** A table's counts are the totals, and in every bucket what has filled and what is live fit in what was placed. */
  ghost predicate TableOk<K>(t: Table<K>, r: ModelResults, live: seq<SyntheticOrder>, m: QueueModel,
                             key: SyntheticOrder -> K) {
    |t.placed| == r.placed && |t.filled| == r.filled && t.filled + LiveKeys(live, m, key) <= t.placed
  }

  /** Every order placed has filled, has expired, or is live; the fills are those of the orders still held, and of the
      ones swept out before. */
  ghost predicate Tallied(r: ModelResults, live: seq<SyntheticOrder>, m: QueueModel, gone: nat) {
    && r.filled == gone + FilledCount(live, m)
    && r.placed == r.filled + r.reasons[Expired] + |LiveKeys(live, m, SymbolKey)|
    && |r.reasons| == r.filled + r.reasons[Expired] && |r.timeToFill| == r.filled
    && r.reasons[NotYet] == r.reasons[LevelGone] == 0
    && TableOk(r.bySymbol, r, live, m, SymbolKey) && TableOk(r.byDepth, r, live, m, DepthKey)
    && TableOk(r.byAhead, r, live, m, AheadKey) && TableOk(r.bySymbolAhead, r, live, m, SymbolAheadKey)
  }

  lemma LiveKeysAppend<K>(live: seq<SyntheticOrder>, o: SyntheticOrder, m: QueueModel, key: SyntheticOrder -> K)
    ensures LiveKeys(live + [o], m, key) == LiveKeys(live, m, key) + One(o, m, key)
  {
    assert (live + [o])[..|live|] == live;
  }

  lemma {:induction false} LiveKeysUpdate<K>(live: seq<SyntheticOrder>, i: nat, o: SyntheticOrder, m: QueueModel,
                                             key: SyntheticOrder -> K)
    requires i < |live|
    ensures LiveKeys(live[i := o], m, key) + One(live[i], m, key) == LiveKeys(live, m, key) + One(o, m, key)
  {
    hide LiveKeys, One;
    var n, live' := |live| - 1, live[i := o];
    LiveKeysLast(live, m, key);
    LiveKeysLast(live', m, key);
    if i == n {
      assert live'[..n] == live[..n];
      Swap(LiveKeys(live[..n], m, key), One(o, m, key), One(live[n], m, key));
    } else {
      LiveKeysUpdate(live[..n], i, o, m, key);
      assert live'[..n] == live[..n][i := o];
      AddBoth(LiveKeys(live'[..n], m, key), One(live[i], m, key), LiveKeys(live[..n], m, key), One(o, m, key),
              One(live[n], m, key));
    }
  }

  lemma Swap<K>(a: multiset<K>, x: multiset<K>, y: multiset<K>)
    ensures (a + x) + y == (a + y) + x
  {
  }

  lemma LiveKeysLast<K>(live: seq<SyntheticOrder>, m: QueueModel, key: SyntheticOrder -> K)
    requires live != []
    ensures LiveKeys(live, m, key) == LiveKeys(live[..|live| - 1], m, key) + One(live[|live| - 1], m, key)
  {
  }

  lemma AddBoth<K>(a: multiset<K>, x: multiset<K>, b: multiset<K>, y: multiset<K>, z: multiset<K>)
    requires a + x == b + y
    ensures (a + z) + x == (b + z) + y
  {
    forall k ensures ((a + z) + x)[k] == ((b + z) + y)[k] { assert (a + x)[k] == (b + y)[k]; }
  }

  /** An order that stops being live under a model gives up its key. */
  lemma LiveKeysLeft<K>(live: seq<SyntheticOrder>, i: nat, o: SyntheticOrder, m: QueueModel, key: SyntheticOrder -> K)
    requires i < |live| && LiveIn(live[i], m) && !LiveIn(o, m)
    ensures LiveKeys(live[i := o], m, key) + multiset{key(live[i])} == LiveKeys(live, m, key)
  {
    hide LiveKeys;
    LiveKeysUpdate(live, i, o, m, key);
    assert LiveKeys(live, m, key) + multiset{} == LiveKeys(live, m, key);
  }

  lemma LiveKeysSame<K>(live: seq<SyntheticOrder>, i: nat, o: SyntheticOrder, m: QueueModel, key: SyntheticOrder -> K)
    requires i < |live| && LiveIn(live[i], m) == LiveIn(o, m) && key(live[i]) == key(o)
    ensures LiveKeys(live[i := o], m, key) == LiveKeys(live, m, key)
  {
    hide LiveKeys;
    LiveKeysUpdate(live, i, o, m, key);
    CancelRight(LiveKeys(live[i := o], m, key), LiveKeys(live, m, key), One(o, m, key));
  }

  lemma CancelRight<K>(a: multiset<K>, b: multiset<K>, z: multiset<K>)
    requires a + z == b + z
    ensures a == b
  {
    forall k ensures a[k] == b[k] { assert (a + z)[k] == (b + z)[k]; }
  }

  /** The orders a sweep keeps. */
  function Kept(live: seq<SyntheticOrder>): seq<SyntheticOrder> {
    if live == [] then []
    else
      var front, last := Kept(live[..|live| - 1]), live[|live| - 1];
      if last.anyLive then front + [last] else front
  }

  lemma {:induction false} LiveKeysKept<K>(live: seq<SyntheticOrder>, m: QueueModel, key: SyntheticOrder -> K)
    requires forall o :: o in live && !o.anyLive ==> NoneLive(o)
    ensures LiveKeys(Kept(live), m, key) == LiveKeys(live, m, key)
  {
    if live != [] {
      var front, last := live[..|live| - 1], live[|live| - 1];
      LiveKeysKept(front, m, key);
      assert last in live;
      if last.anyLive { LiveKeysAppend(Kept(front), last, m, key); }
    }
  }

  /** The live orders that pass a test, in order. */
  function Staying(live: seq<SyntheticOrder>, stays: SyntheticOrder -> bool): seq<SyntheticOrder> {
    if live == [] then []
    else
      var front, last := Staying(live[..|live| - 1], stays), live[|live| - 1];
      if last.anyLive && stays(last) then front + [last] else front
  }

  function Young(ts: u64, maxLife: u64): SyntheticOrder -> bool {
    (o: SyntheticOrder) => Since(ts, o.entered) < maxLife
  }

  function Elsewhere(locate: Locate): SyntheticOrder -> bool { (o: SyntheticOrder) => o.locate != locate }

  /** Expiring the live orders that fail a test and then keeping what is live leaves those that pass it. */
  lemma {:induction false} KeptStay(live: seq<SyntheticOrder>, live': seq<SyntheticOrder>,
                                    stays: SyntheticOrder -> bool)
    requires |live'| == |live|
    requires forall j :: 0 <= j < |live| ==>
               live'[j] == if live[j].anyLive && !stays(live[j]) then ExpiredAll(live[j]) else live[j]
    ensures Kept(live') == Staying(live, stays)
  {
    hide ExpiredAll;
    if live != [] {
      var n := |live| - 1;
      KeptStay(live[..n], live'[..n], stays);
      ExpiredAllViews(live[n]);
    }
  }

  /** What stays is live and passes the test, and nothing that does is lost. */
  lemma {:induction false} StayingMembers(live: seq<SyntheticOrder>, stays: SyntheticOrder -> bool)
    ensures forall o :: o in Staying(live, stays) <==> o in live && o.anyLive && stays(o)
  {
    if live != [] { StayingMembers(live[..|live| - 1], stays); }
  }

  lemma {:induction false} KeptMembers(live: seq<SyntheticOrder>)
    ensures forall o :: o in Kept(live) <==> o in live && o.anyLive
  {
    if live != [] {
      KeptMembers(live[..|live| - 1]);
      assert live == live[..|live| - 1] + [live[|live| - 1]];
    }
  }

  /** The orders a sweep drops. */
  function Dropped(live: seq<SyntheticOrder>): seq<SyntheticOrder> {
    if live == [] then []
    else
      var front, last := Dropped(live[..|live| - 1]), live[|live| - 1];
      if last.anyLive then front else front + [last]
  }

  lemma {:induction false} DroppedMembers(live: seq<SyntheticOrder>)
    ensures forall o :: o in Dropped(live) ==> o in live && !o.anyLive
  {
    if live != [] { DroppedMembers(live[..|live| - 1]); }
  }

  lemma FilledCountAppend(live: seq<SyntheticOrder>, o: SyntheticOrder, m: QueueModel)
    ensures FilledCount(live + [o], m) == FilledCount(live, m) + if FilledIn(o, m) then 1 else 0
  {
    assert (live + [o])[..|live|] == live;
  }

  lemma {:induction false} FilledCountConcat(a: seq<SyntheticOrder>, b: seq<SyntheticOrder>, m: QueueModel)
    ensures FilledCount(a + b, m) == FilledCount(a, m) + FilledCount(b, m)
  {
    if b == [] {
      assert a + b == a;
    } else {
      var n := |b| - 1;
      FilledCountConcat(a, b[..n], m);
      assert (a + b)[..|a + b| - 1] == a + b[..n];
    }
  }

  lemma {:induction false} FilledCountSplit(live: seq<SyntheticOrder>, m: QueueModel)
    ensures FilledCount(live, m) == FilledCount(Kept(live), m) + FilledCount(Dropped(live), m)
  {
    if live != [] {
      var front, last := live[..|live| - 1], live[|live| - 1];
      FilledCountSplit(front, m);
      FilledCountAppend(Kept(front), last, m);
      FilledCountAppend(Dropped(front), last, m);
    }
  }

  lemma {:induction false} FilledCountUpdate(live: seq<SyntheticOrder>, i: nat, o: SyntheticOrder, m: QueueModel)
    requires i < |live|
    ensures FilledCount(live[i := o], m) + (if FilledIn(live[i], m) then 1 else 0)
            == FilledCount(live, m) + if FilledIn(o, m) then 1 else 0
  {
    var n, live' := |live| - 1, live[i := o];
    if i == n {
      assert live'[..n] == live[..n];
    } else {
      FilledCountUpdate(live[..n], i, o, m);
      assert live'[..n] == live[..n][i := o];
    }
  }

  /** Where every fill under one model is a fill under another, the other has at least as many. */
  lemma {:induction false} FillsFollow(live: seq<SyntheticOrder>, a: QueueModel, b: QueueModel)
    requires forall o :: o in live && FilledIn(o, b) ==> FilledIn(o, a)
    ensures FilledCount(live, b) <= FilledCount(live, a)
  {
    if live != [] {
      assert live[|live| - 1] in live;
      FillsFollow(live[..|live| - 1], a, b);
    }
  }

  // ----- the accounts are kept -----

  lemma TalliedAfterPlacing(r: ModelResults, live: seq<SyntheticOrder>, m: QueueModel, gone: nat, o: SyntheticOrder)
    requires Tallied(r, live, m, gone) && LiveIn(o, m) && !FilledIn(o, m)
    ensures Tallied(CountPlaced(r, o), live + [o], m, gone)
  {
    hide LiveKeys, FilledCount, TableOk, LiveIn, FilledIn, DepthBucket, AheadGrid, Placing;
    var r' := CountPlaced(r, o);
    LiveKeysAppend(live, o, m, SymbolKey);
    OneWhenLive(o, m, SymbolKey);
    FilledCountAppend(live, o, m);
    TableAfterPlacing(r.bySymbol, r, r', live, m, o, SymbolKey);
    TableAfterPlacing(r.byDepth, r, r', live, m, o, DepthKey);
    TableAfterPlacing(r.byAhead, r, r', live, m, o, AheadKey);
    TableAfterPlacing(r.bySymbolAhead, r, r', live, m, o, SymbolAheadKey);
  }

  lemma OneWhenLive<K>(o: SyntheticOrder, m: QueueModel, key: SyntheticOrder -> K)
    requires LiveIn(o, m)
    ensures One(o, m, key) == multiset{key(o)}
  {
  }

  lemma TableAfterPlacing<K>(t: Table<K>, r: ModelResults, r': ModelResults, live: seq<SyntheticOrder>, m: QueueModel,
                             o: SyntheticOrder, key: SyntheticOrder -> K)
    requires TableOk(t, r, live, m, key) && LiveIn(o, m) && r'.placed == r.placed + 1 && r'.filled == r.filled
    ensures TableOk(Placing(t, key(o)), r', live + [o], m, key)
  {
    hide LiveKeys, LiveIn;
    LiveKeysAppend(live, o, m, key);
    OneWhenLive(o, m, key);
  }

  ghost predicate SameKeys(o: SyntheticOrder, p: SyntheticOrder) { o.locate == p.locate && o.depth == p.depth }

  lemma TableAfterFill<K>(t: Table<K>, r: ModelResults, r': ModelResults, live: seq<SyntheticOrder>, m: QueueModel,
                          i: nat,
                          o: SyntheticOrder, key: SyntheticOrder -> K)
    requires i < |live| && TableOk(t, r, live, m, key) && LiveIn(live[i], m) && !LiveIn(o, m)
    requires r'.placed == r.placed && r'.filled == r.filled + 1
    ensures TableOk(Filling(t, key(live[i])), r', live[i := o], m, key)
  {
    hide LiveKeys;
    LiveKeysLeft(live, i, o, m, key);
  }

  lemma TableAfterExpiry<K>(t: Table<K>, r: ModelResults, r': ModelResults, live: seq<SyntheticOrder>, m: QueueModel,
                            i: nat,
                            o: SyntheticOrder, key: SyntheticOrder -> K)
    requires i < |live| && TableOk(t, r, live, m, key) && LiveIn(live[i], m) && !LiveIn(o, m)
    requires r'.placed == r.placed && r'.filled == r.filled
    ensures TableOk(t, r', live[i := o], m, key)
  {
    hide LiveKeys;
    LiveKeysLeft(live, i, o, m, key);
  }

  lemma TalliedAfterFill(r: ModelResults, live: seq<SyntheticOrder>, m: QueueModel, gone: nat, i: nat,
                         o: SyntheticOrder, ts: u64, why: FillReason)
    requires i < |live| && Tallied(r, live, m, gone) && LiveIn(live[i], m) && !LiveIn(o, m)
    requires !FilledIn(live[i], m) && FilledIn(o, m)
    requires why != Expired && why != NotYet && why != LevelGone
    ensures Tallied(CountFilled(r, live[i], ts, why), live[i := o], m, gone)
  {
    hide LiveKeys, TableOk, LiveIn, DepthBucket, AheadGrid, FillTimeBucket, Since, FilledCount, FilledIn;
    FilledCountUpdate(live, i, o, m);
    var r' := CountFilled(r, live[i], ts, why);
    LiveKeysLeft(live, i, o, m, SymbolKey);
    TableAfterFill(r.bySymbol, r, r', live, m, i, o, SymbolKey);
    TableAfterFill(r.byDepth, r, r', live, m, i, o, DepthKey);
    TableAfterFill(r.byAhead, r, r', live, m, i, o, AheadKey);
    TableAfterFill(r.bySymbolAhead, r, r', live, m, i, o, SymbolAheadKey);
  }

  lemma TalliedAfterExpiry(r: ModelResults, live: seq<SyntheticOrder>, m: QueueModel, gone: nat, i: nat,
                           o: SyntheticOrder)
    requires i < |live| && Tallied(r, live, m, gone) && LiveIn(live[i], m) && !LiveIn(o, m)
             && FilledIn(o, m) == FilledIn(live[i], m)
    ensures Tallied(CountExpired(r), live[i := o], m, gone)
  {
    hide LiveKeys, TableOk, LiveIn, FilledCount, FilledIn;
    FilledCountUpdate(live, i, o, m);
    var r' := CountExpired(r);
    LiveKeysLeft(live, i, o, m, SymbolKey);
    TableAfterExpiry(r.bySymbol, r, r', live, m, i, o, SymbolKey);
    TableAfterExpiry(r.byDepth, r, r', live, m, i, o, DepthKey);
    TableAfterExpiry(r.byAhead, r, r', live, m, i, o, AheadKey);
    TableAfterExpiry(r.bySymbolAhead, r, r', live, m, i, o, SymbolAheadKey);
  }

  lemma TalliedElsewhere(r: ModelResults, live: seq<SyntheticOrder>, m: QueueModel, gone: nat, i: nat,
                         o: SyntheticOrder)
    requires i < |live| && Tallied(r, live, m, gone) && LiveIn(live[i], m) == LiveIn(o, m)
             && FilledIn(live[i], m) == FilledIn(o, m) && SameKeys(o, live[i])
    ensures Tallied(r, live[i := o], m, gone)
  {
    hide LiveKeys, LiveIn, FilledCount, FilledIn;
    FilledCountUpdate(live, i, o, m);
    LiveKeysSame(live, i, o, m, SymbolKey);
    LiveKeysSame(live, i, o, m, DepthKey);
    LiveKeysSame(live, i, o, m, AheadKey);
    LiveKeysSame(live, i, o, m, SymbolAheadKey);
  }

  lemma TalliedAfterSweep(r: ModelResults, live: seq<SyntheticOrder>, m: QueueModel, gone: nat)
    requires Tallied(r, live, m, gone) && forall o :: o in live && !o.anyLive ==> NoneLive(o)
    ensures Tallied(r, Kept(live), m, gone + FilledCount(Dropped(live), m))
  {
    LiveKeysKept(live, m, SymbolKey);
    LiveKeysKept(live, m, DepthKey);
    LiveKeysKept(live, m, AheadKey);
    LiveKeysKept(live, m, SymbolAheadKey);
    FilledCountSplit(live, m);
  }

  lemma TalliedAtStart(m: QueueModel)
    ensures Tallied(NO_RESULTS, [], m, 0)
  {
  }

  /** With nothing live, everything placed has filled or expired, and in every bucket no more has filled than was
      placed. */
  lemma AllSettled(r: ModelResults, live: seq<SyntheticOrder>, m: QueueModel, gone: nat)
    requires Tallied(r, live, m, gone) && forall o :: o in live ==> NoneLive(o)
    ensures r.placed == r.filled + r.reasons[Expired] == |r.reasons|
  {
    NothingLive(live, m);
  }

  lemma {:induction false} NothingLive(live: seq<SyntheticOrder>, m: QueueModel)
    requires forall o :: o in live ==> NoneLive(o)
    ensures LiveKeys(live, m, SymbolKey) == multiset{}
  {
    if live != [] {
      assert live[|live| - 1] in live;
      NothingLive(live[..|live| - 1], m);
    }
  }
}
