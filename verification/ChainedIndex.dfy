/** The separately chained alternative to the open-addressed index, over the same keys and values. */
module ChainedIndexes {
  import opened BookTypes
  import opened Bits
  import OrderIndexes

  datatype Node = Node(key: u64, value: u32, next: u32)

  const UNUSED := Node(0, NO_ORDER, NO_ORDER)

  // ----- lists of nodes -----

  /** Position i of a list links to the position after it, or ends the list. */
  ghost predicate LinkedAt(nodes: seq<Node>, list: seq<u32>, i: nat)
    requires i < |list|
  {
    list[i] < |nodes| && nodes[list[i]].next == if i + 1 < |list| then list[i + 1] else NO_ORDER
  }

  /** The nodes reached from `head` are exactly the list, in order, and none comes twice. */
  ghost predicate IsList(nodes: seq<Node>, head: u32, list: seq<u32>) {
    && head == (if list == [] then NO_ORDER else list[0])
    && (forall i :: 0 <= i < |list| ==> LinkedAt(nodes, list, i))
    && (forall i, j :: 0 <= i < j < |list| ==> list[i] != list[j])
  }

  lemma ListFrame(nodes: seq<Node>, nodes': seq<Node>, head: u32, list: seq<u32>)
    requires IsList(nodes, head, list) && |nodes'| == |nodes|
    requires forall n :: n in list && n < |nodes| ==> nodes'[n].next == nodes[n].next
    ensures IsList(nodes', head, list)
  {
    forall i | 0 <= i < |list| ensures LinkedAt(nodes', list, i) { assert LinkedAt(nodes, list, i) && list[i] in list; }
  }

  lemma ListPush(nodes: seq<Node>, nodes': seq<Node>, head: u32, list: seq<u32>, n: u32)
    requires IsList(nodes, head, list) && n !in list && n < |nodes| == |nodes'|
    requires nodes'[n].next == head && forall k :: k in list && k < |nodes| ==> nodes'[k].next == nodes[k].next
    ensures IsList(nodes', n, [n] + list)
  {
    var longer := [n] + list;
    forall i | 0 <= i < |longer| ensures LinkedAt(nodes', longer, i) {
      if i > 0 { assert LinkedAt(nodes, list, i - 1) && list[i - 1] in list; }
    }
    forall i, j | 0 <= i < j < |longer| ensures longer[i] != longer[j] {
      if i == 0 { assert longer[j] == list[j - 1] && list[j - 1] in list; }
    }
  }

  lemma ListPop(nodes: seq<Node>, head: u32, list: seq<u32>)
    requires IsList(nodes, head, list) && list != []
    ensures head == list[0] && head < |nodes| && head !in list[1..] && IsList(nodes, nodes[head].next, list[1..])
  {
    var rest := list[1..];
    assert LinkedAt(nodes, list, 0);
    forall i | 0 <= i < |rest| ensures LinkedAt(nodes, rest, i) { assert LinkedAt(nodes, list, i + 1); }
  }

  function Cut(list: seq<u32>, p: nat): seq<u32>
    requires p < |list|
  {
    list[..p] + list[p + 1..]
  }

  /** Taking position p out: the link that led to it leads past it. */
  lemma ListCut(nodes: seq<Node>, nodes': seq<Node>, head: u32, list: seq<u32>, p: nat)
    requires IsList(nodes, head, list) && p < |list| && |nodes'| == |nodes|
    requires forall i :: 0 <= i < |list| ==> list[i] < |nodes|
    requires forall i :: 0 <= i < |list| && i != p ==>
               nodes'[list[i]].next == if i + 1 == p then nodes[list[p]].next else nodes[list[i]].next
    ensures IsList(nodes', if p == 0 then nodes[list[p]].next else head, Cut(list, p)) && list[p] !in Cut(list, p)
  {
    var rest := Cut(list, p);
    assert LinkedAt(nodes, list, p);
    forall i | 0 <= i < |rest| ensures LinkedAt(nodes', rest, i) {
      if i < p { assert LinkedAt(nodes, list, i); } else { assert LinkedAt(nodes, list, i + 1); }
    }
    forall i | 0 <= i < |rest| ensures rest[i] != list[p] { assert rest[i] == if i < p then list[i] else list[i + 1]; }
  }

  // ----- the whole table -----

  /** A node's place: the bucket whose chain holds it, or -1 for the free list. */
  ghost predicate OwnedBy(owner: seq<int>, b: int, n: u32) { n < |owner| && owner[n] == b }

  ghost predicate Owned(chains: seq<seq<u32>>, free: seq<u32>, owner: seq<int>) {
    && (forall b: nat, n: u32 :: b < |chains| && n in chains[b] ==> OwnedBy(owner, b, n))
    && (forall n: u32 :: n in free ==> OwnedBy(owner, -1, n))
    && (forall n: u32 :: n < |owner| ==> Somewhere(chains, free, owner[n], n))
  }

  ghost predicate Somewhere(chains: seq<seq<u32>>, free: seq<u32>, b: int, n: u32) {
    if 0 <= b < |chains| then n in chains[b] else b == -1 && n in free
  }

  ghost predicate ChainsOk(heads: seq<u32>, nodes: seq<Node>, chains: seq<seq<u32>>) {
    |chains| == |heads| && forall b :: 0 <= b < |heads| ==> IsList(nodes, heads[b], chains[b])
  }

  /** A node in a chain holds a key of that bucket, and the entry is what the table says of the key. */
  ghost predicate HoldsEntry(nodes: seq<Node>, home: u64 -> nat, at: map<u64, u32>, entries: map<u64, u32>, b: nat,
                             n: u32) {
    && n < |nodes| && nodes[n].value != NO_ORDER
    && var k := nodes[n].key; home(k) == b && k in entries && k in at && at[k] == n && entries[k] == nodes[n].value
  }

  ghost predicate EntriesOk(nodes: seq<Node>, home: u64 -> nat, chains: seq<seq<u32>>, at: map<u64, u32>,
                            entries: map<u64, u32>) {
    && (forall k :: home(k) < |chains|) && at.Keys == entries.Keys
    && (forall b, n :: 0 <= b < |chains| && n in chains[b] ==> HoldsEntry(nodes, home, at, entries, b, n))
    && (forall k :: k in at ==> at[k] in chains[home(k)] && at[k] < |nodes| && nodes[at[k]].key == k)
  }

  lemma ChainMembers(heads: seq<u32>, nodes: seq<Node>, chains: seq<seq<u32>>, b: nat)
    requires ChainsOk(heads, nodes, chains) && b < |chains|
    ensures IsList(nodes, heads[b], chains[b]) && forall n :: n in chains[b] ==> n < |nodes|
  {
    forall n | n in chains[b] ensures n < |nodes| {
      var i :| 0 <= i < |chains[b]| && chains[b][i] == n;
      assert LinkedAt(nodes, chains[b], i);
    }
  }

  /** A walk of a key's chain finds the key exactly when it is there. */
  lemma WalkDecides(nodes: seq<Node>, home: u64 -> nat, chains: seq<seq<u32>>, at: map<u64, u32>,
                    entries: map<u64, u32>, key: u64)
    requires EntriesOk(nodes, home, chains, at, entries)
    ensures forall n :: n in chains[home(key)] && n < |nodes| && nodes[n].key == key ==>
              key in entries && entries[key] == nodes[n].value && at[key] == n
    ensures key in entries ==> exists i :: 0 <= i < |chains[home(key)]| && chains[home(key)][i] == at[key]
  {
    forall n | n in chains[home(key)] && n < |nodes| && nodes[n].key == key
      ensures key in entries && entries[key] == nodes[n].value && at[key] == n
    {
      assert HoldsEntry(nodes, home, at, entries, home(key), n);
    }
  }

  lemma Overwritten(heads: seq<u32>, nodes: seq<Node>, home: u64 -> nat, chains: seq<seq<u32>>, at: map<u64, u32>,
                    entries: map<u64, u32>, key: u64, value: u32)
    requires ChainsOk(heads, nodes, chains) && EntriesOk(nodes, home, chains, at, entries) && key in entries
             && value != NO_ORDER
    ensures var nodes' := nodes[at[key] := nodes[at[key]].(value := value)];
            ChainsOk(heads, nodes', chains) && EntriesOk(nodes', home, chains, at, entries[key := value])
  {
    var nodes' := nodes[at[key] := nodes[at[key]].(value := value)];
    forall b | 0 <= b < |heads| ensures IsList(nodes', heads[b], chains[b]) {
      ListFrame(nodes, nodes', heads[b], chains[b]);
    }
    forall b, n | 0 <= b < |chains| && n in chains[b]
      ensures HoldsEntry(nodes', home, at, entries[key := value], b, n) {
      assert HoldsEntry(nodes, home, at, entries, b, n);
    }
  }

  /** A free node pushed on the front of its key's chain. */
  lemma Pushed(heads: seq<u32>, nodes: seq<Node>, heads': seq<u32>, nodes': seq<Node>, home: u64 -> nat,
               chains: seq<seq<u32>>,
               free: seq<u32>, owner: seq<int>, at: map<u64, u32>, entries: map<u64, u32>, n: u32, key: u64, value: u32)
    returns (chains': seq<seq<u32>>, free': seq<u32>, owner': seq<int>, at': map<u64, u32>)
    requires ChainsOk(heads, nodes, chains) && EntriesOk(nodes, home, chains, at, entries) && Owned(chains, free, owner)
    requires key !in entries && value != NO_ORDER && n < |nodes| == |owner| && free != [] && IsList(nodes, n, free)
    requires home(key) < |heads| && heads' == heads[home(key) := n]
             && nodes' == nodes[n := Node(key, value, heads[home(key)])]
    ensures ChainsOk(heads', nodes', chains') && EntriesOk(nodes', home, chains', at', entries[key := value])
    ensures Owned(chains', free', owner') && IsList(nodes', nodes[n].next, free') && |owner'| == |owner|
            && |free'| == |free| - 1
  {
    var b := home(key);
    chains', free', owner', at' := chains[b := [n] + chains[b]], free[1..], owner[n := b], at[key := n];
    ListPop(nodes, n, free);
    ListFrame(nodes, nodes', nodes[n].next, free');
    assert n in free && OwnedBy(owner, -1, n);
    forall c | 0 <= c < |heads| ensures IsList(nodes', heads'[c], chains'[c]) {
      NotThere(chains, owner, c, n);
      if c == b {
        ListPush(nodes, nodes', heads[b], chains[b], n);
      } else {
        ListFrame(nodes, nodes', heads[c], chains[c]);
      }
    }
    forall c, k | 0 <= c < |chains'| && k in chains'[c]
      ensures HoldsEntry(nodes', home, at', entries[key := value], c, k) {
      if k != n {
        assert k in chains[c] && HoldsEntry(nodes, home, at, entries, c, k);
      }
    }
    OwnedAfterPush(chains, free, owner, n, b);
  }

  lemma NotThere(chains: seq<seq<u32>>, owner: seq<int>, c: nat, n: u32)
    requires c < |chains| && OwnedBy(owner, -1, n)
    requires forall b: nat, k: u32 :: b < |chains| && k in chains[b] ==> OwnedBy(owner, b, k)
    ensures n !in chains[c]
  {
    assert n in chains[c] ==> OwnedBy(owner, c, n);
  }

  lemma OwnedAfterPush(chains: seq<seq<u32>>, free: seq<u32>, owner: seq<int>, n: u32, b: nat)
    requires Owned(chains, free, owner) && n < |owner| && free != [] && n == free[0] && n !in free[1..] && b < |chains|
    ensures Owned(chains[b := [n] + chains[b]], free[1..], owner[n := b])
  {
    var chains', owner', rest := chains[b := [n] + chains[b]], owner[n := b], free[1..];
    assert n in free && free == [n] + rest && OwnedBy(owner, -1, n);
    forall c: nat, k: u32 | c < |chains'| && k in chains'[c] ensures OwnedBy(owner', c, k) {
      if k != n || c != b { assert k in chains[c] && OwnedBy(owner, c, k); }
    }
    forall k: u32 | k in rest ensures OwnedBy(owner', -1, k) { assert k in free && OwnedBy(owner, -1, k); }
    forall k: u32 | k < |owner'| ensures Somewhere(chains', rest, owner'[k], k) {
      assert Somewhere(chains, free, owner[k], k);
    }
  }

  /** A node cut out of its chain and put on the free list. */
  lemma Removed(heads: seq<u32>, nodes: seq<Node>, heads': seq<u32>, nodes': seq<Node>, home: u64 -> nat,
                chains: seq<seq<u32>>,
                free: seq<u32>, owner: seq<int>, at: map<u64, u32>, entries: map<u64, u32>, key: u64, p: nat,
                  prev: u32, freeHead: u32)
    returns (chains': seq<seq<u32>>, free': seq<u32>, owner': seq<int>, at': map<u64, u32>)
    requires ChainsOk(heads, nodes, chains) && EntriesOk(nodes, home, chains, at, entries) && Owned(chains, free, owner)
    requires IsList(nodes, freeHead, free) && |nodes'| == |nodes| == |owner|
    requires key in entries && home(key) < |chains| && p < |chains[home(key)]| && chains[home(key)][p] == at[key]
    requires heads' == if p == 0 then heads[home(key) := nodes[at[key]].next] else heads
    requires at[key] < |nodes| < NO_ORDER && prev == (if p == 0 then NO_ORDER else chains[home(key)][p - 1])
    requires (p > 0 ==> prev < |nodes|) && nodes' == CutNodes(nodes, at[key], prev, freeHead)
    ensures ChainsOk(heads', nodes', chains') && EntriesOk(nodes', home, chains', at', entries - {key})
    ensures Owned(chains', free', owner') && IsList(nodes', at[key], free') && |owner'| == |owner|
            && |free'| == |free| + 1
  {
    hide CutNodes, Cut;
    var b, n := home(key), at[key];
    var chain := chains[b];
    ChainMembers(heads, nodes, chains, b);
    assert n in chain;
    if p > 0 { assert chain[p - 1] in chain; }
    Neighbours(nodes, heads[b], chain, p);
    CutFits(nodes, n, prev, freeHead);
    chains', free', owner', at' := chains[b := Cut(chain, p)], [n] + free, owner[n := -1], at - {key};
    forall c | 0 <= c < |heads| ensures IsList(nodes', heads'[c], chains'[c]) {
      if c == b {
        CutLinks(nodes, nodes', heads[b], chain, p, freeHead);
      } else {
        OtherChain(chains, free, owner, b, c, p, n);
        ListFrame(nodes, nodes', heads[c], chains[c]);
      }
    }
    CutMembers(nodes, heads[b], chain, p);
    EntriesAfterCut(nodes, nodes', home, chains, at, entries, key, p);
    OwnedAfterCut(chains, free, owner, b, p, n);
    FreeUntouched(chains, free, owner, b, p, n);
    ListPush(nodes, nodes', freeHead, free, n);
  }

  lemma Neighbours(ns: seq<Node>, head: u32, chain: seq<u32>, p: nat)
    requires IsList(ns, head, chain) && p < |chain|
    ensures p > 0 ==> chain[p - 1] != chain[p]
  {
  }

  /** The links after node i is cut out of its chain and put on the free list. */
  ghost function CutNodes(ns: seq<Node>, i: u32, prev: u32, head: u32): seq<Node>
    requires i < |ns| && (prev == NO_ORDER || prev < |ns|)
  {
    var past := if prev == NO_ORDER then ns else ns[prev := ns[prev].(next := ns[i].next)];
    past[i := past[i].(value := NO_ORDER, next := head)]
  }

  lemma CutFits(ns: seq<Node>, i: u32, prev: u32, head: u32)
    requires i < |ns| && prev != i && (prev == NO_ORDER || prev < |ns|)
    ensures var ns' := CutNodes(ns, i, prev, head);
            && |ns'| == |ns| && ns'[i].next == head
            && (forall k: nat :: k < |ns| && k != i ==> ns'[k].key == ns[k].key && ns'[k].value == ns[k].value)
            && (forall k: nat :: k < |ns| && k != i ==>
                ns'[k].next == if prev != NO_ORDER && k == prev then ns[i].next else ns[k].next)
  {
  }

  lemma CutLinks(nodes: seq<Node>, nodes': seq<Node>, head: u32, chain: seq<u32>, p: nat, freeHead: u32)
    requires IsList(nodes, head, chain) && p < |chain| && |nodes'| == |nodes|
    requires (forall k :: k in chain ==> k < |nodes|) && chain[p] < |nodes|
    requires forall k: nat :: k < |nodes| && k != chain[p] ==>
               nodes'[k].next == if p > 0 && k == chain[p - 1] then nodes[chain[p]].next else nodes[k].next
    ensures chain[p] in chain && IsList(nodes', if p == 0 then nodes[chain[p]].next else head, Cut(chain, p))
  {
    assert chain[p] in chain;
    forall i | 0 <= i < |chain| ensures chain[i] < |nodes| { assert chain[i] in chain; }
    ListCut(nodes, nodes', head, chain, p);
  }

  lemma CutMembers(nodes: seq<Node>, head: u32, chain: seq<u32>, p: nat)
    requires IsList(nodes, head, chain) && p < |chain|
    ensures forall k :: k in Cut(chain, p) <==> k in chain && k != chain[p]
  {
    var rest := Cut(chain, p);
    forall k | k in chain && k != chain[p] ensures k in rest {
      var i :| 0 <= i < |chain| && chain[i] == k;
      assert rest[if i < p then i else i - 1] == k;
    }
    forall k | k in rest ensures k in chain && k != chain[p] {
      var i :| 0 <= i < |rest| && rest[i] == k;
      assert k == chain[if i < p then i else i + 1];
    }
  }

  lemma OtherChain(chains: seq<seq<u32>>, free: seq<u32>, owner: seq<int>, b: nat, c: nat, p: nat, n: u32)
    requires Owned(chains, free, owner) && b < |chains| && c < |chains| && b != c && p < |chains[b]|
             && n == chains[b][p]
    ensures n !in chains[c] && (p > 0 ==> chains[b][p - 1] !in chains[c])
  {
    assert n in chains[b] && OwnedBy(owner, b, n);
    assert n in chains[c] ==> OwnedBy(owner, c, n);
    if p > 0 {
      var m := chains[b][p - 1];
      assert m in chains[b] && OwnedBy(owner, b, m);
      assert m in chains[c] ==> OwnedBy(owner, c, m);
    }
  }

  lemma FreeUntouched(chains: seq<seq<u32>>, free: seq<u32>, owner: seq<int>, b: nat, p: nat, n: u32)
    requires Owned(chains, free, owner) && b < |chains| && p < |chains[b]| && n == chains[b][p]
    ensures n !in free && (p > 0 ==> chains[b][p - 1] !in free)
  {
    assert n in chains[b] && OwnedBy(owner, b, n);
    if p > 0 {
      var m := chains[b][p - 1];
      assert m in chains[b] && OwnedBy(owner, b, m);
    }
  }

  lemma OwnedAfterCut(chains: seq<seq<u32>>, free: seq<u32>, owner: seq<int>, b: nat, p: nat, n: u32)
    requires Owned(chains, free, owner) && b < |chains| && p < |chains[b]| && n == chains[b][p] && n < |owner|
    requires forall k :: k in Cut(chains[b], p) <==> k in chains[b] && k != chains[b][p]
    ensures Owned(chains[b := Cut(chains[b], p)], [n] + free, owner[n := -1])
  {
    var chains', owner', longer := chains[b := Cut(chains[b], p)], owner[n := -1], [n] + free;
    assert n in chains[b] && OwnedBy(owner, b, n);
    forall c: nat, k: u32 | c < |chains'| && k in chains'[c] ensures OwnedBy(owner', c, k) {
      assert k in chains[c] && OwnedBy(owner, c, k);
    }
    forall k: u32 | k in longer ensures OwnedBy(owner', -1, k) {
      if k != n { assert k in free && OwnedBy(owner, -1, k); }
    }
    forall k: u32 | k < |owner'| ensures Somewhere(chains', longer, owner'[k], k) {
      assert Somewhere(chains, free, owner[k], k);
    }
  }

  lemma EntriesAfterCut(nodes: seq<Node>, nodes': seq<Node>, home: u64 -> nat, chains: seq<seq<u32>>, at: map<u64, u32>,
                        entries: map<u64, u32>, key: u64, p: nat)
    requires EntriesOk(nodes, home, chains, at, entries) && key in entries && |nodes'| == |nodes|
    requires p < |chains[home(key)]| && chains[home(key)][p] == at[key]
    requires forall k: nat ::
               k < |nodes| && k != at[key] ==> nodes'[k].key == nodes[k].key && nodes'[k].value == nodes[k].value
    requires forall k :: k in Cut(chains[home(key)], p) <==> k in chains[home(key)] && k != at[key]
    ensures EntriesOk(nodes', home, chains[home(key) := Cut(chains[home(key)], p)], at - {key}, entries - {key})
  {
    var b := home(key);
    var chains', at', entries' := chains[b := Cut(chains[b], p)], at - {key}, entries - {key};
    forall c, k | 0 <= c < |chains'| && k in chains'[c] ensures HoldsEntry(nodes', home, at', entries', c, k) {
      assert k in chains[c] && HoldsEntry(nodes, home, at, entries, c, k);
      assert HoldsEntry(nodes, home, at, entries, b, at[key]);
    }
    forall k | k in at' ensures at'[k] in chains'[home(k)] && nodes'[at'[k]].key == k {
      assert at[k] != at[key];
    }
  }

  /** The bucket of a key: the top bits of a multiplication. */
  function Bucket(key: u64, shift: nat): nat { ShiftRight(key * OrderIndexes.PHI % Pow2(64), shift) }

  class ChainedIndex {
    const heads: array<u32>
    const nodes: array<Node>
    const shift: nat
    var freeHead: u32
    var size: nat
    var insertFailures: nat
    ghost const home: u64 -> nat
    /** The chains and the free list as sequences, each node's place, and the table's contents. */
    ghost var chains: seq<seq<u32>>
    ghost var free: seq<u32>
    ghost var owner: seq<int>
    ghost var at: map<u64, u32>
    ghost var entries: map<u64, u32>

    ghost predicate Valid()
      reads this, heads, nodes
    {
      && heads as object != nodes && heads.Length == nodes.Length == |owner| < NO_ORDER
      && Homes() && Whole(heads[..], nodes[..]) && size == |entries| && |entries| + |free| == nodes.Length
    }

    ghost predicate Homes() { forall key :: home(key) == Bucket(key, shift) }

    ghost predicate Whole(hs: seq<u32>, ns: seq<Node>)
      reads this
    {
      && ChainsOk(hs, ns, chains) && IsList(ns, freeHead, free)
      && Owned(chains, free, owner) && EntriesOk(ns, home, chains, at, entries)
    }

    /** The walk of a key's chain: the node that holds it and the one before, where there are such. */
    method Walk(key: u64) returns (i: u32, prev: u32, ghost p: nat)
      requires Valid()
      ensures home(key) < |chains| && p <= |chains[home(key)]|
      ensures (i != NO_ORDER) == (key in entries) && (i == NO_ORDER || i < nodes.Length)
      ensures key in entries ==>
                at[key] == i && nodes[i].value == entries[key] && p < |chains[home(key)]| && chains[home(key)][p] == i
      ensures key in entries ==> prev == if p == 0 then NO_ORDER else chains[home(key)][p - 1]
    {
      hide Bucket, Owned, EntriesOk;
      BucketInside(key);
      ghost var chain := chains[home(key)];
      ChainMembers(heads[..], nodes[..], chains, home(key));
      WalkDecides(nodes[..], home, chains, at, entries, key);
      i, prev, p := heads[Bucket(key, shift)], NO_ORDER, 0;
      while i != NO_ORDER
        invariant p <= |chain| && i == (if p < |chain| then chain[p] else NO_ORDER)
        invariant prev == if p == 0 then NO_ORDER else chain[p - 1]
        invariant forall j :: 0 <= j < p ==> chain[j] < nodes.Length && nodes[chain[j]].key != key
        decreases |chain| - p
      {
        NotMarker(chain, p);
        assert chain[p] in chain && LinkedAt(nodes[..], chain, p);
        if nodes[i].key == key { return; }
        prev, i, p := i, nodes[i].next, p + 1;
      }
      ChainEnds(chain, p);
      AtKey(key);
    }

    lemma BucketInside(key: u64)
      requires Valid()
      ensures home(key) == Bucket(key, shift) < heads.Length == |chains|
    {
    }

    lemma NotMarker(chain: seq<u32>, p: nat)
      requires p <= |chain| && (if p < |chain| then chain[p] else NO_ORDER) != NO_ORDER
      ensures p < |chain|
    {
    }

    lemma ChainEnds(chain: seq<u32>, p: nat)
      requires p <= |chain| && (forall n :: n in chain ==> n < nodes.Length) && nodes.Length < NO_ORDER
      requires (if p < |chain| then chain[p] else NO_ORDER) == NO_ORDER
      ensures p == |chain|
    {
      forall j | 0 <= j < |chain| ensures chain[j] != NO_ORDER { assert chain[j] in chain; }
    }

    lemma AtKey(key: u64)
      requires Valid()
      ensures key in entries ==> at[key] in chains[home(key)] && at[key] < nodes.Length && nodes[at[key]].key == key
    {
    }

    method Find(key: u64) returns (value: u32)
      requires Valid()
      ensures value == if key in entries then entries[key] else NO_ORDER
    {
      var i, prev, p := Walk(key);
      value := if i == NO_ORDER then NO_ORDER else nodes[i].value;
    }

    /** A new key takes the first free node, at the head of its chain. It fails only with every node in use. */
    method Insert(key: u64, value: u32) returns (ok: bool)
      requires Valid()
      modifies this, heads, nodes
      ensures Valid()
      ensures ok == (value != NO_ORDER && (key in old(entries) || |old(entries)| < nodes.Length))
      ensures entries == if ok then old(entries)[key := value] else old(entries)
      ensures insertFailures == old(insertFailures) + if value != NO_ORDER && !ok then 1 else 0
    {
      hide Valid;
      if value == NO_ORDER { return false; }
      var i, prev, p := Walk(key);
      if i != NO_ORDER {
        SizeFits();
        Overwrite(i, key, value);
        return true;
      }
      ok := InsertNew(key, value);
    }

    lemma SizeFits()
      requires Valid()
      ensures |entries| <= nodes.Length
    {
    }

    /** The same node, with a new value; the size is unchanged. */
    method Overwrite(i: u32, key: u64, value: u32)
      requires Valid() && key in entries && at[key] == i && i < nodes.Length && value != NO_ORDER
      modifies `entries, nodes
      ensures Valid() && entries == old(entries)[key := value]
    {
      hide Bucket, Owned, EntriesOk, ChainsOk, IsList, Homes;
      ghost var ns, hs := nodes[..], heads[..];
      Overwritten(hs, ns, home, chains, at, entries, key, value);
      OtherList(ns, freeHead, free, i, value);
      assert |entries[key := value]| == |entries| by { assert entries[key := value].Keys == entries.Keys; }
      nodes[i] := nodes[i].(value := value);
      assert nodes[..] == ns[i := ns[i].(value := value)];
      entries := entries[key := value];
    }

    method InsertNew(key: u64, value: u32) returns (ok: bool)
      requires Valid() && key !in entries && value != NO_ORDER
      modifies this, heads, nodes
      ensures Valid() && ok == (|old(entries)| < nodes.Length)
      ensures entries == if ok then old(entries)[key := value] else old(entries)
      ensures insertFailures == old(insertFailures) + if ok then 0 else 1
    {
      hide Bucket, Owned, EntriesOk, ChainsOk, IsList, Homes;
      ghost var ns, hs := nodes[..], heads[..];
      FreeList(ns, freeHead, free);
      if freeHead == NO_ORDER {
        insertFailures := insertFailures + 1;
        return false;
      }
      var n, b := freeHead, Bucket(key, shift);
      BucketInside(key);
      FirstFree(ns, freeHead, free);
      TakeFree(freeHead, key, value, b);
      ghost var hs', ns' := heads[..], nodes[..];
      chains, free, owner, at := Pushed(hs, ns, hs', ns', home, chains, free, owner, at, entries, n, key, value);
      size := size + 1;
      entries := entries[key := value];
      ok := true;
    }

    lemma FirstFree(ns: seq<Node>, head: u32, list: seq<u32>)
      requires IsList(ns, head, list) && list != []
      ensures head < |ns|
    {
      assert LinkedAt(ns, list, 0);
    }

    method TakeFree(n: u32, key: u64, value: u32, b: nat)
      requires n < nodes.Length && b < heads.Length && heads as object != nodes
      modifies heads, nodes, `freeHead
      ensures heads[..] == old(heads[..])[b := n] && nodes[..] == old(nodes[..])[n := Node(key, value, old(heads[b]))]
      ensures freeHead == old(nodes[n].next)
    {
      freeHead := nodes[n].next;
      nodes[n] := Node(key, value, heads[b]);
      heads[b] := n;
    }

    lemma OtherList(ns: seq<Node>, head: u32, list: seq<u32>, i: u32, value: u32)
      requires IsList(ns, head, list) && i < |ns|
      ensures IsList(ns[i := ns[i].(value := value)], head, list)
    {
      ListFrame(ns, ns[i := ns[i].(value := value)], head, list);
    }

    lemma FreeList(ns: seq<Node>, head: u32, list: seq<u32>)
      requires IsList(ns, head, list) && |ns| < NO_ORDER
      ensures head == NO_ORDER <==> list == []
    {
      assert list != [] ==> LinkedAt(ns, list, 0);
    }

    /** The node is cut out of its chain and becomes the first free one. */
    method Erase(key: u64) returns (removed: u32)
      requires Valid()
      modifies this, heads, nodes
      ensures Valid() && insertFailures == old(insertFailures)
      ensures removed == if key in old(entries) then old(entries)[key] else NO_ORDER
      ensures entries == old(entries) - {key}
    {
      hide Valid;
      var i, prev, p := Walk(key);
      Without(entries, key);
      if i == NO_ORDER { return NO_ORDER; }
      removed := nodes[i].value;
      Remove(key, i, prev, p);
    }

    lemma Without(m: map<u64, u32>, key: u64)
      ensures key in m ==> |m - {key}| == |m| - 1
      ensures key !in m ==> m - {key} == m
    {
      if key in m { assert (m - {key}).Keys == m.Keys - {key}; }
    }

    method Remove(key: u64, i: u32, prev: u32, ghost p: nat)
      requires Valid() && key in entries && at[key] == i && home(key) < |chains| && p < |chains[home(key)]|
      requires chains[home(key)][p] == i && prev == if p == 0 then NO_ORDER else chains[home(key)][p - 1]
      modifies this, heads, nodes
      ensures Valid() && insertFailures == old(insertFailures) && entries == old(entries) - {key}
    {
      hide Bucket, Owned, EntriesOk, ChainsOk, IsList, CutNodes, Homes;
      BucketInside(key);
      ghost var ns, hs := nodes[..], heads[..];
      ChainMembers(hs, ns, chains, home(key));
      InChain(chains[home(key)], p);
      Neighbours(ns, hs[home(key)], chains[home(key)], p);
      Without(entries, key);
      CutOut(i, prev, Bucket(key, shift));
      chains, free, owner, at :=
        Removed(hs, ns, heads[..], nodes[..], home, chains, free, owner, at, entries, key, p, prev, old(freeHead));
      size := size - 1;
      entries := entries - {key};
    }

    method CutOut(i: u32, prev: u32, b: nat)
      requires i < nodes.Length && b < heads.Length && prev != i && (prev == NO_ORDER || prev < nodes.Length)
               && heads as object != nodes
      modifies heads, nodes, `freeHead
      ensures nodes[..] == CutNodes(old(nodes[..]), i, prev, old(freeHead)) && freeHead == i
      ensures heads[..] == if prev == NO_ORDER then old(heads[..])[b := old(nodes[i].next)] else old(heads[..])
    {
      var next := nodes[i].next;
      if prev == NO_ORDER {
        heads[b] := next;
      } else {
        nodes[prev] := nodes[prev].(next := next);
      }
      nodes[i] := nodes[i].(value := NO_ORDER, next := freeHead);
      freeHead := i;
    }

    lemma InChain(chain: seq<u32>, p: nat)
      requires p < |chain|
      ensures chain[p] in chain && (p > 0 ==> chain[p - 1] in chain)
    {
    }

    /** The hint rounded up to a power of two, and at least 16. */
    static method RoundUp(hint: nat) returns (cap: nat, n: nat)
      requires hint <= Pow2(31)
      ensures 4 <= n < 32 && cap == Pow2(n) && cap >= 16 && cap >= hint && (hint > 16 ==> cap < 2 * hint)
    {
      cap, n := 16, 4;
      assert Pow2(4) == 16;
      while cap < hint
        invariant 4 <= n < 32 && cap == Pow2(n) && cap >= 16 && (cap > 16 ==> cap < 2 * hint)
        decreases hint - cap
      {
        Pow2Monotone(31, n);
        cap, n := cap * 2, n + 1;
      }
    }

    /** Puts every node on the free list, the first node first. */
    method SeedFree()
      requires nodes.Length < NO_ORDER
      modifies nodes, `freeHead, `free
      ensures IsList(nodes[..], freeHead, free) && |free| == nodes.Length
      ensures forall n: u32 :: n in free <==> n < nodes.Length
    {
      freeHead, free := NO_ORDER, [];
      var i := nodes.Length;
      while i > 0
        invariant 0 <= i <= nodes.Length && IsList(nodes[..], freeHead, free) && |free| == nodes.Length - i
        invariant forall n: u32 :: n in free <==> i <= n < nodes.Length
      {
        i := i - 1;
        ghost var ns := nodes[..];
        nodes[i] := UNUSED.(next := freeHead);
        ListPush(ns, nodes[..], freeHead, free, i);
        freeHead, free := i, [i] + free;
      }
    }

    /** All chains empty and every node free. */
    ghost predicate Empty()
      reads this, heads, nodes
    {
      && (forall b :: 0 <= b < heads.Length ==> heads[b] == NO_ORDER)
      && IsList(nodes[..], freeHead, free) && |free| == nodes.Length && forall n: u32 :: n in free <==> n < nodes.Length
    }

    lemma EmptyIsValid()
      requires Empty() && heads as object != nodes && heads.Length == nodes.Length < NO_ORDER
      requires forall key :: home(key) == Bucket(key, shift) < heads.Length
      requires chains == seq(heads.Length, _ => []) && owner == seq(heads.Length, _ => -1) && at == map[]
               && entries == map[] && size == 0
      ensures Valid()
    {
      hide Bucket;
      forall n: u32 | n < |owner| ensures Somewhere(chains, free, owner[n], n) {}
    }

    constructor (hint: nat)
      requires hint <= Pow2(31)
      ensures Valid() && entries == map[] && insertFailures == 0 && fresh(heads) && fresh(nodes)
      ensures nodes.Length >= 16 && nodes.Length >= hint && (hint > 16 ==> nodes.Length < 2 * hint)
    {
      hide Pow2, Bucket, Valid;
      var cap, n := RoundUp(hint);
      FitsMarker(n);
      var hs, ns := new u32[cap](_ => NO_ORDER), new Node[cap](_ => UNUSED);
      var s := 64 - n;
      heads, nodes, shift := hs, ns, s;
      home := key => Bucket(key, s);
      freeHead, size, insertFailures := NO_ORDER, 0, 0;
      chains, free, owner, at, entries := seq(cap, _ => []), [], seq(cap, _ => -1), map[], map[];
      new;
      SeedFree();
      forall key ensures home(key) == Bucket(key, shift) < heads.Length { BucketFits(key, n); }
      EmptyIsValid();
    }

    static lemma FitsMarker(n: nat)
      requires n < 32
      ensures Pow2(n) < NO_ORDER
    {
      Pow2Of32();
      Pow2Monotone(n, 32);
    }

    static lemma BucketFits(key: u64, n: nat)
      requires n < 64
      ensures Bucket(key, 64 - n) < Pow2(n)
    {
      hide Pow2;
      ShiftRightBelow(key * OrderIndexes.PHI % Pow2(64), n, 64 - n);
    }

    method ClearHeads()
      modifies heads
      ensures forall b :: 0 <= b < heads.Length ==> heads[b] == NO_ORDER
    {
      var b := 0;
      while b < heads.Length
        invariant b <= heads.Length && forall c :: 0 <= c < b ==> heads[c] == NO_ORDER
      {
        heads[b] := NO_ORDER;
        b := b + 1;
      }
    }

    lemma BucketsInside()
      requires Valid()
      ensures forall key :: home(key) == Bucket(key, shift) < heads.Length
    {
      forall key ensures home(key) == Bucket(key, shift) < heads.Length { BucketInside(key); }
    }

    /** Forgets every entry. */
    method Clear()
      requires Valid()
      modifies this, heads, nodes
      ensures Valid() && entries == map[] && insertFailures == old(insertFailures)
    {
      hide Bucket, Valid, IsList;
      BucketsInside();
      Apart();
      ClearHeads();
      SeedFree();
      size := 0;
      chains, owner, at, entries := seq(heads.Length, _ => []), seq(heads.Length, _ => -1), map[], map[];
      EmptyIsValid();
    }

    lemma Apart()
      requires Valid()
      ensures heads as object != nodes && heads.Length == nodes.Length < NO_ORDER
    {
    }
  }
}
