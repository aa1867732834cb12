/** The open-addressed map from order reference to pool index: linear probing with backward-shift deletion. */
module OrderIndexes {
  import opened BookTypes
  import opened Bits

  datatype Slot = Slot(key: u64, value: u32)

  const VACANT := Slot(0, NO_ORDER)

  // ----- hash policies -----

  /** A policy takes the reference, the table's mask and its shift, and picks the slot. */
  type HashPolicy = (u64, nat, nat) -> nat

  /** In a table of 2^n slots the policy picks a slot of the table. */
  ghost predicate Inside(policy: HashPolicy, n: nat, key: u64)
    requires n <= 64
  {
    policy(key, Pow2(n) - 1, 64 - n) < Pow2(n)
  }

  ghost predicate StaysInside(policy: HashPolicy) {
    forall n: nat, key: u64 :: n < 64 ==> Inside(policy, n, key)
  }

  const PHI: u64 := 0x9E37_79B9_7F4A_7C15

  function IdentityHash(): HashPolicy { (ref: u64, mask: nat, shift: nat) => And(ref, mask) }

  function MultiplyShiftHash(): HashPolicy {
    (ref: u64, mask: nat, shift: nat) => ShiftRight(ref * PHI % Pow2(64), shift)
  }

  /** Both common standard libraries hash a 64-bit integer to itself. */
  function StdHash(): HashPolicy { (ref: u64, mask: nat, shift: nat) => And(ref, mask) }

  lemma MaskingStaysInside()
    ensures StaysInside(IdentityHash()) && StaysInside(StdHash())
  {
    forall n: nat, key: u64 | n < 64 ensures Inside(IdentityHash(), n, key) && Inside(StdHash(), n, key) {
      AndMask(key, n);
    }
  }

  lemma MultiplyShiftStaysInside()
    ensures StaysInside(MultiplyShiftHash())
  {
    forall n: nat, key: u64 | n < 64 ensures Inside(MultiplyShiftHash(), n, key) {
      ShiftRightBelow(key * PHI % Pow2(64), n, 64 - n);
    }
  }

  /** In a table of 2^n slots: the low bits of the reference, or the high bits of its product with 2^64 over the golden
      ratio, rounded down. */
  lemma PoliciesExactly(n: nat, ref: u64)
    requires n <= 64
    ensures var mask, shift := Pow2(n) - 1, 64 - n;
            && IdentityHash()(ref, mask, shift) == StdHash()(ref, mask, shift) == ref % Pow2(n)
            && MultiplyShiftHash()(ref, mask, shift) == ref * PHI % Pow2(64) / Pow2(64 - n)
    ensures var w := 0x1_0000_0000_0000_0000;
            (2 * PHI + w) * (2 * PHI + w) <= 5 * w * w < (2 * (PHI + 1) + w) * (2 * (PHI + 1) + w)
  {
    AndMask(ref, n);
    ShiftRightDivides(ref * PHI % Pow2(64), 64 - n);
  }

  // ----- the table as a value -----

  predicate Occupied(s: seq<Slot>, i: nat)
    requires i < |s|
  {
    s[i].value != NO_ORDER
  }

  /** How far a forward probe walks, with wraparound, to get from slot a to slot b. */
  function Dist(cap: nat, a: nat, b: nat): int { if a <= b then b - a else b - a + cap }

  /** x lies on the probe path that starts at h and stops just before i. */
  predicate OnPath(cap: nat, h: nat, i: nat, x: nat) { Dist(cap, h, x) < Dist(cap, h, i) }

  /** The next slot of a probe, `(i + 1) & mask` in a table of `cap` slots. */
  function Next(cap: nat, i: nat): nat { if i + 1 == cap then 0 else i + 1 }

  /** `at` says where each key sits; occupied slots and keys are in bijection. */
  ghost predicate Placed(s: seq<Slot>, at: map<u64, nat>) {
    && (forall i :: 0 <= i < |s| && Occupied(s, i) ==> s[i].key in at && at[s[i].key] == i)
    && (forall k :: k in at ==> at[k] < |s| && Occupied(s, at[k]) && s[at[k]].key == k)
  }

  /** Every slot from a key's home to its position is occupied, so a probe reaches it. */
  ghost predicate Reachable(s: seq<Slot>, home: u64 -> nat, at: map<u64, nat>)
    requires Placed(s, at)
  {
    forall k, x: nat :: k in at && x < |s| && OnPath(|s|, home(k), at[k], x) ==> Occupied(s, x)
  }

  ghost predicate Holds(s: seq<Slot>, at: map<u64, nat>, entries: map<u64, u32>)
    requires Placed(s, at)
  {
    at.Keys == entries.Keys && forall k :: k in at ==> entries[k] == s[at[k]].value
  }

  ghost function KeysUnder(at: map<u64, nat>, n: nat): set<u64> { set k | k in at && at[k] < n }

  lemma {:induction false} KeysBelow(s: seq<Slot>, at: map<u64, nat>, n: nat)
    requires Placed(s, at) && n <= |s|
    requires forall i :: 0 <= i < |s| ==> Occupied(s, i)
    ensures n <= |KeysUnder(at, n)|
  {
    if n > 0 {
      KeysBelow(s, at, n - 1);
      assert Occupied(s, n - 1);
      assert KeysUnder(at, n) == KeysUnder(at, n - 1) + {s[n - 1].key};
    }
  }

  lemma FullTable(s: seq<Slot>, at: map<u64, nat>)
    requires Placed(s, at)
    requires forall i :: 0 <= i < |s| ==> Occupied(s, i)
    ensures |s| <= |at|
  {
    KeysBelow(s, at, |s|);
    assert KeysUnder(at, |s|) == at.Keys;
  }

  /** A table holding fewer keys than slots has a vacant slot, so every probe stops. */
  lemma VacantSlot(s: seq<Slot>, at: map<u64, nat>) returns (e: nat)
    requires Placed(s, at) && |at| < |s|
    ensures e < |s| && !Occupied(s, e)
  {
    if forall i :: 0 <= i < |s| ==> Occupied(s, i) { FullTable(s, at); }
    e :| 0 <= e < |s| && !Occupied(s, e);
  }

  /** The table `s` stores exactly `entries`: key k is in slot at[k], where a probe from its home finds it. */
  ghost predicate Table(s: seq<Slot>, home: u64 -> nat, at: map<u64, nat>, entries: map<u64, u32>) {
    && (forall k :: home(k) < |s|)
    && Placed(s, at) && Reachable(s, home, at) && Holds(s, at, entries)
  }

  /** Every slot a probe for `key` passes before slot i holds some other key. */
  ghost predicate Passed(s: seq<Slot>, home: u64 -> nat, key: u64, i: nat) {
    && i < |s|
    && forall x: nat :: x < |s| && OnPath(|s|, home(key), i, x) ==> Occupied(s, x) && s[x].key != key
  }

  /** Of two slots, a probe meets one before the other. */
  lemma OneIsFirst(cap: nat, h: nat, i: nat, p: nat)
    requires h < cap && i < cap && p < cap
    ensures i == p || OnPath(cap, h, i, p) || OnPath(cap, h, p, i)
  {
  }

  lemma HomesInside(policy: HashPolicy, n: nat, home: u64 -> nat)
    requires StaysInside(policy) && n < 64
    requires forall key :: home(key) == policy(key, Pow2(n) - 1, 64 - n)
    ensures forall key :: home(key) < Pow2(n)
  {
    forall key ensures home(key) < Pow2(n) { assert Inside(policy, n, key); }
  }

  lemma EmptyTable(s: seq<Slot>, home: u64 -> nat)
    requires forall k :: home(k) < |s|
    requires forall i :: 0 <= i < |s| ==> s[i] == VACANT
    ensures Table(s, home, map[], map[])
  {
  }

  lemma PassedOne(s: seq<Slot>, home: u64 -> nat, key: u64, i: nat, e: nat)
    requires home(key) < |s| && Passed(s, home, key, i) && Occupied(s, i) && s[i].key != key
    requires e < |s| && !Occupied(s, e) && Dist(|s|, home(key), i) <= Dist(|s|, home(key), e)
    ensures var j := Next(|s|, i); Passed(s, home, key, j) && Dist(|s|, home(key), j) <= Dist(|s|, home(key), e)
    ensures Dist(|s|, Next(|s|, i), e) < Dist(|s|, i, e)
  {
    var j := Next(|s|, i);
    forall x: nat | x < |s| && OnPath(|s|, home(key), j, x) ensures Occupied(s, x) && s[x].key != key {
      assert x == i || OnPath(|s|, home(key), i, x);
    }
  }

  /** A probe that stops at a vacant slot or at the key itself has decided whether the key is present. */
  lemma ProbeDecides(s: seq<Slot>, home: u64 -> nat, at: map<u64, nat>, entries: map<u64, u32>, key: u64, i: nat)
    requires Table(s, home, at, entries) && Passed(s, home, key, i)
    requires !Occupied(s, i) || s[i].key == key
    ensures Occupied(s, i) <==> key in entries
    ensures key in entries ==> at[key] == i && s[i].value == entries[key]
  {
    if key in at { OneIsFirst(|s|, home(key), i, at[key]); }
  }

  /** Writing an entry where its probe stops adds or overwrites it. */
  lemma PutEntry(s: seq<Slot>, home: u64 -> nat, at: map<u64, nat>, entries: map<u64, u32>,
                 key: u64, i: nat, value: u32)
    requires Table(s, home, at, entries) && Passed(s, home, key, i) && value != NO_ORDER
    requires !Occupied(s, i) || s[i].key == key
    ensures Table(s[i := Slot(key, value)], home, at[key := i], entries[key := value])
  {
    ProbeDecides(s, home, at, entries, key, i);
    var s', at' := s[i := Slot(key, value)], at[key := i];
    assert Placed(s', at');
    forall x: nat | x < |s| && Occupied(s, x) ensures Occupied(s', x) {}
  }

  // ----- backward-shift deletion -----

  /** Deletion started at `start`; slot i is the hole, slots after it up to j have been scanned and stay put, and the
      vacant slot e ends the run. Only a path to a slot not yet scanned may cross the hole. */
  ghost predicate Shifting(s: seq<Slot>, home: u64 -> nat, at: map<u64, nat>, left: map<u64, u32>,
                           start: nat, i: nat, j: nat, e: nat) {
    var cap := |s|;
    && Placed(s, at) && Holds(s, at, left) && (forall k :: home(k) < cap)
    && start < cap && i < cap && j < cap && e < cap && e != i
    && !Occupied(s, i) && !Occupied(s, e)
    && Dist(cap, start, i) <= Dist(cap, start, j) < Dist(cap, start, e)
    && (forall k, x: nat :: k in at && x < cap ==> Clear(s, home, at, start, i, j, k, x))
  }

  /** If x is on the path of key k then it is occupied, or it is the hole i and k's slot has not been scanned yet. */
  ghost predicate Clear(s: seq<Slot>, home: u64 -> nat, at: map<u64, nat>, start: nat, i: nat, j: nat, k: u64, x: nat)
    requires k in at && x < |s|
  {
    OnPath(|s|, home(k), at[k], x) ==>
      Occupied(s, x) || (x == i && Dist(|s|, start, j) < Dist(|s|, start, at[k]))
  }

  /** The entry in slot j, whose home is k, is already at or after its home relative to hole i. */
  predicate CannotMove(i: nat, j: nat, k: nat) { if i <= j then i < k && k <= j else i < k || k <= j }

  /** Scanning one slot further, short of e. */
  lemma ScanFacts(cap: nat, start: nat, i: nat, j: nat, e: nat)
    requires start < cap && i < cap && j < cap && e < cap
    requires Dist(cap, start, i) <= Dist(cap, start, j) < Dist(cap, start, e)
    ensures var j' := Next(cap, j); j' < cap && j' != i && j' != j
    ensures Dist(cap, start, Next(cap, j)) == Dist(cap, start, j) + 1
    ensures forall x: nat, y: nat :: x < cap && y < cap && Dist(cap, start, x) == Dist(cap, start, y) ==> x == y
  {
  }

  lemma ShorterPath(cap: nat, h: nat, j: nat, i: nat, x: nat)
    requires OnPath(cap, h, j, i) && OnPath(cap, h, i, x)
    ensures OnPath(cap, h, j, x) && x != i && x != j
  {
  }

  /** A path that crosses i and ends beyond j, as seen from `start`, crosses everything between them. */
  lemma StretchOnPath(cap: nat, start: nat, h: nat, p: nat, i: nat, j: nat)
    requires start < cap && h < cap && p < cap && i < cap && j < cap && OnPath(cap, h, p, i)
    requires Dist(cap, start, i) <= Dist(cap, start, j) < Dist(cap, start, p)
    ensures OnPath(cap, h, p, j)
  {
  }

  /** A path that crosses x and ends before it, as seen from `start`, wraps around through everything after x. */
  lemma WrapOnPath(cap: nat, start: nat, h: nat, p: nat, x: nat, e: nat)
    requires start < cap && h < cap && p < cap && x < cap && e < cap && OnPath(cap, h, p, x)
    requires Dist(cap, start, p) < Dist(cap, start, x) < Dist(cap, start, e)
    ensures OnPath(cap, h, p, e)
  {
  }

  /** An entry that may move has the hole on its own probe path. */
  lemma HoleOnPath(cap: nat, i: nat, j: nat, h: nat)
    requires i < cap && j < cap && h < cap && i != j && !CannotMove(i, j, h)
    ensures OnPath(cap, h, j, i)
  {
  }

  lemma ShiftEnds(s: seq<Slot>, home: u64 -> nat, at: map<u64, nat>, left: map<u64, u32>,
                  start: nat, i: nat, j: nat, e: nat)
    requires Shifting(s, home, at, left, start, i, j, e)
    requires !Occupied(s, Next(|s|, j))
    ensures Table(s, home, at, left)
  {
    var cap, j' := |s|, Next(|s|, j);
    forall k, x: nat | k in at && x < cap && OnPath(cap, home(k), at[k], x) ensures Occupied(s, x) {
      assert Clear(s, home, at, start, i, j, k, x) && Clear(s, home, at, start, i, j, k, j');
      if x == i && at[k] != j' { StretchOnPath(cap, start, home(k), at[k], i, j'); }
    }
  }

  lemma ShiftStarts(s: seq<Slot>, home: u64 -> nat, at: map<u64, nat>, entries: map<u64, u32>, hole: nat, e: nat)
    requires Table(s, home, at, entries)
    requires hole < |s| && Occupied(s, hole) && e < |s| && !Occupied(s, e)
    ensures var s', k := s[hole := s[hole].(value := NO_ORDER)], s[hole].key;
            Shifting(s', home, at - {k}, entries - {k}, hole, hole, hole, e)
  {
    var cap, s', at' := |s|, s[hole := s[hole].(value := NO_ORDER)], at - {s[hole].key};
    forall k, x: nat | k in at' && x < cap ensures Clear(s', home, at', hole, hole, hole, k, x) {
      assert at[k] != hole;
      if OnPath(cap, home(k), at[k], x) { assert Occupied(s, x); }
    }
  }

  /** The scan stays short of the vacant slot that ends the run, so the loop terminates. */
  lemma ShiftRuns(s: seq<Slot>, home: u64 -> nat, at: map<u64, nat>, left: map<u64, u32>,
                  start: nat, i: nat, j: nat, e: nat)
    requires Shifting(s, home, at, left, start, i, j, e) && Occupied(s, Next(|s|, j))
    ensures 0 <= Dist(|s|, Next(|s|, j), e) < Dist(|s|, j, e) && Next(|s|, j) < |s| && Next(|s|, j) != i
            && home(s[Next(|s|, j)].key) < |s|
  {
  }

  lemma ShiftSkips(s: seq<Slot>, home: u64 -> nat, at: map<u64, nat>, left: map<u64, u32>,
                  start: nat, i: nat, j: nat, e: nat)
    requires Shifting(s, home, at, left, start, i, j, e)
    requires var j' := Next(|s|, j); Occupied(s, j') && CannotMove(i, j', home(s[j'].key))
    ensures Shifting(s, home, at, left, start, i, Next(|s|, j), e)
  {
    var cap, j' := |s|, Next(|s|, j);
    forall k, x: nat | k in at && x < cap ensures Clear(s, home, at, start, i, j', k, x) {
      assert Clear(s, home, at, start, i, j, k, x);
      if at[k] == j' { assert k == s[j'].key; }
    }
  }

  /** The table after the entry in slot j has been pulled back into the hole i. */
  function Moved(s: seq<Slot>, i: nat, j: nat): seq<Slot>
    requires i < |s| && j < |s|
  {
    s[i := s[j]][j := s[j].(value := NO_ORDER)]
  }

  lemma MovedPlaced(s: seq<Slot>, at: map<u64, nat>, left: map<u64, u32>, i: nat, j: nat)
    requires Placed(s, at) && Holds(s, at, left) && i < |s| && j < |s| && i != j && !Occupied(s, i) && Occupied(s, j)
    ensures var s', at' := Moved(s, i, j), at[s[j].key := i]; Placed(s', at') && Holds(s', at', left)
  {
  }

  /** After the move, the path of key k is clear but perhaps for the new hole j, which lies before k's slot. */
  lemma MovedPath(s: seq<Slot>, home: u64 -> nat, at: map<u64, nat>, left: map<u64, u32>,
                  start: nat, i: nat, j: nat, e: nat, k: u64, x: nat)
    requires Shifting(s, home, at, left, start, i, j, e) && Next(|s|, j) != i
    requires var j' := Next(|s|, j); Occupied(s, j') && !CannotMove(i, j', home(s[j'].key))
    requires k in at && x < |s|
    ensures var j' := Next(|s|, j); Clear(Moved(s, i, j'), home, at[s[j'].key := i], start, j', j', k, x)
  {
    var cap, j' := |s|, Next(|s|, j);
    ScanFacts(cap, start, i, j, e);
    hide Dist, CannotMove, Next, OnPath;
    assert Clear(s, home, at, start, i, j, k, x) && Clear(s, home, at, start, i, j, k, e);
    if !OnPath(cap, home(k), at[s[j'].key := i][k], x) {
    } else if k == s[j'].key {
      HoleOnPath(cap, i, j', home(k));
      ShorterPath(cap, home(k), j', i, x);
    } else if x == j' && Dist(cap, start, at[k]) < Dist(cap, start, j') {
      WrapOnPath(cap, start, home(k), at[k], j', e);
    }
  }

  lemma ShiftMoves(s: seq<Slot>, home: u64 -> nat, at: map<u64, nat>, left: map<u64, u32>,
                   start: nat, i: nat, j: nat, e: nat)
    requires Shifting(s, home, at, left, start, i, j, e)
    requires var j' := Next(|s|, j); Occupied(s, j') && !CannotMove(i, j', home(s[j'].key))
    ensures var j' := Next(|s|, j); Shifting(Moved(s, i, j'), home, at[s[j'].key := i], left, start, j', j', e)
  {
    var cap, j' := |s|, Next(|s|, j);
    var s', at' := Moved(s, i, j'), at[s[j'].key := i];
    ScanFacts(cap, start, i, j, e);
    MovedPlaced(s, at, left, i, j');
    hide Dist, CannotMove, Next, OnPath, Clear, Placed, Holds;
    forall k, x: nat | k in at' && x < cap ensures Clear(s', home, at', start, j', j', k, x) {
      MovedPath(s, home, at, left, start, i, j, e, k, x);
    }
  }

  lemma VacantEntry(s: seq<Slot>, home: u64 -> nat, at: map<u64, nat>, entries: map<u64, u32>) returns (e: nat)
    requires Table(s, home, at, entries) && |entries| < |s|
    ensures e < |s| && !Occupied(s, e)
    ensures forall k :: home(k) < |s| && Passed(s, home, k, home(k))
  {
    assert |at| == |at.Keys| == |entries.Keys| == |entries|;
    e := VacantSlot(s, at);
  }

  /** Twice the hint rounded up to a power of two, and at least 16. */
  predicate SizedFor(hint: nat, cap: nat) { cap >= 16 && cap >= 2 * hint && (hint > 8 ==> cap < 4 * hint) }

  /** `cap`, doubled until it is no less than the hint. */
  function RoundedUp(hint: nat, cap: nat): (up: nat)
    requires cap > 0
    ensures up >= hint && up >= cap
    decreases hint - cap
  {
    if cap >= hint then cap else RoundedUp(hint, 2 * cap)
  }

  /** How many slots a hint gives. */
  function CapacityFor(hint: nat): nat {
    var cap := 2 * RoundedUp(hint, 1);
    if cap < 16 then 16 else cap
  }

  class OrderIndex {
    const slots: array<Slot>
    const home: u64 -> nat
    var size: nat
    var insertFailures: nat
    ghost const exponent: nat
    ghost var entries: map<u64, u32>
    ghost var at: map<u64, nat>

    ghost predicate Valid()
      reads this, slots
    {
      Table(slots[..], home, at, entries) && size == |entries| && 2 * size <= slots.Length && slots.Length > 0
    }

    /** The hint is rounded up to a power of two and then doubled. */
    constructor (hint: nat, policy: HashPolicy)
      requires StaysInside(policy) && hint <= Pow2(62)
      ensures Valid() && fresh(slots) && entries == map[] && insertFailures == 0
      ensures SizedFor(hint, slots.Length) && slots.Length == CapacityFor(hint)
      ensures 4 <= exponent < 64 && slots.Length == Pow2(exponent)
      ensures forall key :: home(key) == policy(key, slots.Length - 1, 64 - exponent)
    {
      hide StaysInside, Pow2, Table, SizedFor, CapacityFor;
      var cap, n := Capacity(hint);
      var mask, shift := cap - 1, 64 - n;
      home, exponent := (key: u64) => policy(key, mask, shift), n;
      slots := new Slot[cap](_ => VACANT);
      size, insertFailures := 0, 0;
      entries, at := map[], map[];
      new;
      HomesInside(policy, exponent, home);
      EmptyTable(slots[..], home);
    }

    static method Capacity(hint: nat) returns (cap: nat, n: nat)
      requires hint <= Pow2(62)
      ensures 4 <= n < 64 && cap == Pow2(n)
      ensures SizedFor(hint, cap) && cap == CapacityFor(hint)
    {
      cap, n := 1, 0;
      while cap < hint
        invariant cap == Pow2(n) && n <= 62 && (cap > 1 ==> cap < 2 * hint)
        invariant RoundedUp(hint, cap) == RoundedUp(hint, 1)
        decreases hint - cap
      {
        Pow2Monotone(62, n);
        cap, n := cap * 2, n + 1;
      }
      cap, n := cap * 2, n + 1;
      assert Pow2(4) == 16;
      if cap < 16 {
        cap, n := 16, 4;
      } else {
        Pow2Monotone(n, 4);
        Pow2Monotone(4, n);
      }
    }

    /** Walks the probe path of a key to its slot, or to the first vacant one. */
    method Probe(key: u64) returns (i: nat)
      requires Valid()
      ensures Passed(slots[..], home, key, i) && (slots[i].value == NO_ORDER || slots[i].key == key)
      ensures (slots[i].value != NO_ORDER) == (key in entries)
      ensures key in entries ==> at[key] == i && slots[i].value == entries[key]
    {
      ghost var s := slots[..];
      ghost var e := VacantEntry(s, home, at, entries);
      hide Table;
      i := home(key);
      while slots[i].value != NO_ORDER && slots[i].key != key
        invariant Passed(s, home, key, i) && Dist(|s|, home(key), i) <= Dist(|s|, home(key), e)
        decreases Dist(|s|, i, e)
      {
        PassedOne(s, home, key, i, e);
        i := Next(slots.Length, i);
      }
      ProbeDecides(s, home, at, entries, key, i);
    }

    /** Returns NO_ORDER if the reference is not present. */
    method Find(key: u64) returns (value: u32)
      requires Valid()
      ensures value == if key in entries then entries[key] else NO_ORDER
      ensures key in entries ==> value != NO_ORDER
    {
      var i := Probe(key);
      value := slots[i].value;
    }

    /** Refused at half load even when the reference is already present and would only be overwritten. */
    method Insert(key: u64, value: u32) returns (ok: bool)
      requires Valid()
      modifies this, slots
      ensures Valid()
      ensures ok == (value != NO_ORDER && |old(entries)| + 1 <= slots.Length / 2)
      ensures entries == if ok then old(entries)[key := value] else old(entries)
      ensures insertFailures == old(insertFailures) + if value != NO_ORDER && !ok then 1 else 0
    {
      hide Table;
      if value == NO_ORDER { return false; }
      if size + 1 > slots.Length / 2 {
        insertFailures := insertFailures + 1;
        return false;
      }
      var i := Probe(key);
      hide Passed;
      PutEntry(slots[..], home, at, entries, key, i, value);
      if slots[i].value == NO_ORDER { size := size + 1; }
      slots[i] := Slot(key, value);
      assert slots[..] == old(slots[..])[i := Slot(key, value)];
      entries, at := entries[key := value], at[key := i];
      ok := true;
    }

    /** Later entries of the run are pulled back into the hole when their home allows it, so no tombstone is left. */
    method EraseAt(hole: nat)
      requires Valid() && hole < slots.Length && slots[hole].value != NO_ORDER
      modifies slots, `at
      ensures Table(slots[..], home, at, entries - {old(slots[hole].key)})
    {
      ghost var s0, left := slots[..], entries - {slots[hole].key};
      ghost var e := VacantEntry(s0, home, at, entries);
      ShiftStarts(s0, home, at, entries, hole, e);
      at := at - {slots[hole].key};
      slots[hole] := slots[hole].(value := NO_ORDER);
      assert slots[..] == s0[hole := s0[hole].(value := NO_ORDER)];
      ShiftBack(hole, left, e);
    }

    /** Scans the run behind the hole, up to the vacant slot e at the latest. */
    method ShiftBack(hole: nat, ghost left: map<u64, u32>, ghost e: nat)
      requires hole < slots.Length && Shifting(slots[..], home, at, left, hole, hole, hole, e)
      modifies slots, `at
      ensures Table(slots[..], home, at, left)
    {
      var i: nat, j: nat := hole, hole;
      hide Table, Shifting, Dist, CannotMove, Placed, Reachable, Holds, Moved;
      while slots[Next(slots.Length, j)].value != NO_ORDER
        invariant i < slots.Length && j < slots.Length
        invariant Shifting(slots[..], home, at, left, hole, i, j, e)
        decreases Dist(slots.Length, j, e)
      {
        ghost var s, at0, j0 := slots[..], at, j;
        ShiftRuns(s, home, at, left, hole, i, j, e);
        j := Next(slots.Length, j);
        if CannotMove(i, j, home(slots[j].key)) {
          ShiftSkips(s, home, at0, left, hole, i, j0, e);
        } else {
          ShiftMoves(s, home, at0, left, hole, i, j0, e);
          at := at[slots[j].key := i];
          Pull(i, j);
          i := j;
        }
      }
      ShiftEnds(slots[..], home, at, left, hole, i, j, e);
    }

    /** The entry in slot j goes into slot i, and j becomes the hole. */
    method Pull(i: nat, j: nat)
      requires i < slots.Length && j < slots.Length
      modifies slots
      ensures slots[..] == Moved(old(slots[..]), i, j)
    {
      slots[i] := slots[j];
      slots[j] := slots[j].(value := NO_ORDER);
      assert slots[..] == Moved(old(slots[..]), i, j);
    }

    /** Returns the removed value, or NO_ORDER if the reference was not present. */
    method Erase(key: u64) returns (removed: u32)
      requires Valid()
      modifies this, slots
      ensures Valid() && insertFailures == old(insertFailures)
      ensures removed == if key in old(entries) then old(entries)[key] else NO_ORDER
      ensures entries == old(entries) - {key}
    {
      hide Table;
      var i := Probe(key);
      hide Passed;
      removed := slots[i].value;
      if removed == NO_ORDER { return; }
      EraseAt(i);
      size := size - 1;
      entries := entries - {key};
    }
  }
}
