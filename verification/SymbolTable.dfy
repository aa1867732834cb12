/** Both sides of every symbol of the fast book, seen as one function from level keys to levels. */
module SymbolTables {
  import opened BookTypes
  import opened OrderedKeys
  import opened BookSpec
  import opened FastSides
  import opened FastPools
  import LevelBitmaps

  datatype FastSymbol = FastSymbol(bid: FastSide, ask: FastSide) {
    function Side(buy: bool): FastSide { if buy then bid else ask }
  }

  /** The sides are all different objects, each knowing which it is. */
  ghost predicate Labelled(symbols: seq<FastSymbol>) {
    forall l: nat, buy: bool :: l < |symbols| ==>
      symbols[l].Side(buy).locate == l && symbols[l].Side(buy).buy == buy
  }

  ghost predicate EmptySide(s: FastSide)
    reads s, s.occupied
  {
    s.Valid() && s.base == -1 && forall p: Price :: s.LevelAt(p) == EMPTY
  }

  method NewSymbols(W: nat, n: nat) returns (symbols: seq<FastSymbol>)
    requires GoodWidth(W) && n <= 0x1_0000
    ensures |symbols| == n && Labelled(symbols)
    ensures forall l, buy :: 0 <= l < n ==> EmptySide(symbols[l].Side(buy)) && symbols[l].Side(buy).W == W
    ensures forall l, buy :: 0 <= l < n ==> fresh(symbols[l].Side(buy)) && fresh(symbols[l].Side(buy).occupied)
  {
    symbols := [];
    while |symbols| < n
      invariant |symbols| <= n && Labelled(symbols)
      invariant forall l, buy :: 0 <= l < |symbols| ==> EmptySide(symbols[l].Side(buy)) && symbols[l].Side(buy).W == W
      invariant forall l, buy ::
                  0 <= l < |symbols| ==> fresh(symbols[l].Side(buy)) && fresh(symbols[l].Side(buy).occupied)
    {
      var bid := new FastSide(W, |symbols|, true);
      var ask := new FastSide(W, |symbols|, false);
      symbols := symbols + [FastSymbol(bid, ask)];
    }
  }

  class SymbolTable {
    const symbols: seq<FastSymbol>
    /** The level of every key. */
    ghost var levels: Key -> FastLevel
    /** Where every side's window starts; -1 where it has not been set. */
    ghost var origins: (Locate, bool) -> int
    ghost const Repr: set<object>

    ghost function Sides(): set<FastSide> { set l: nat, buy: bool | l < |symbols| :: symbols[l].Side(buy) }

    ghost function Bitmaps(): set<LevelBitmaps.LevelBitmap> {
      set l: nat, buy: bool | l < |symbols| :: symbols[l].Side(buy).occupied
    }


    ghost predicate SidesOk()
      reads Sides(), Bitmaps()
    {
      |symbols| <= 0x1_0000 && Labelled(symbols) && forall l: nat, buy: bool ::
          l < |symbols| ==> symbols[l].Side(buy).Valid()
    }

    ghost function LevelOf(k: Key): FastLevel
      reads Sides()
    {
      if k.locate < |symbols| then symbols[k.locate].Side(k.buy).LevelAt(k.price) else EMPTY
    }

    ghost function Base(l: Locate, buy: bool): int
      reads Sides()
    {
      if l < |symbols| then symbols[l].Side(buy).base else -1
    }

    ghost function Width(l: Locate, buy: bool): nat { if l < |symbols| then symbols[l].Side(buy).W else 0 }

    /** The side's window reaches a price. */
    ghost predicate Sees(l: Locate, buy: bool, p: Price)
      reads `origins
    {
      Covers(Width(l, buy), origins(l, buy), p / 100)
    }

    /** No window but perhaps one has moved. */
    twostate predicate WindowsKeptBut(locate: Locate, buy: bool)
      reads Sides()
    {
      forall l: Locate, b: bool :: l != locate || b != buy ==> Base(l, b) == old(Base(l, b))
    }

    twostate predicate WindowsKept()
      reads Sides()
    {
      forall l: Locate, b: bool :: Base(l, b) == old(Base(l, b))
    }

    ghost predicate Valid()
      reads this, Repr
    {
      && {this} + Sides() + Bitmaps() == Repr && SidesOk()
      && (forall k :: levels(k) == LevelOf(k)) && forall l: Locate, buy: bool :: origins(l, buy) == Base(l, buy)
    }

    constructor (W: nat, maxSymbols: nat)
      requires GoodWidth(W) && maxSymbols <= 0x1_0000
      ensures Valid() && fresh(Repr) && this in Repr && |symbols| == maxSymbols && forall k :: levels(k) == EMPTY
      ensures forall l: Locate, buy: bool :: origins(l, buy) == -1 && Width(l, buy) == if l < maxSymbols then W else 0
    {
      var table := NewSymbols(W, maxSymbols);
      symbols, levels, origins := table, _ => EMPTY, (_, _) => -1;
      Repr := {this} + (set l: nat, buy: bool | l < |table| :: table[l].Side(buy))
                     + (set l: nat, buy: bool | l < |table| :: table[l].Side(buy).occupied);
      new;
      hide FastSide.ValidBut, FastSide.LevelAt;
    }

    // ----- the sides themselves -----

    /** Each side has a bitmap of its own. */
    lemma BitmapsApart(locate: Locate, buy: bool)
      requires SidesOk() && locate < |symbols|
      ensures forall l: nat, b: bool :: l < |symbols| && (l != locate || b != buy) ==>
                symbols[l].Side(b) != symbols[locate].Side(buy)
                && symbols[l].Side(b).occupied != symbols[locate].Side(buy).occupied
    {
      forall l: nat, b: bool | l < |symbols| && (l != locate || b != buy)
        ensures symbols[l].Side(b) != symbols[locate].Side(buy)
        ensures symbols[l].Side(b).occupied != symbols[locate].Side(buy).occupied
      {
        assert symbols[l].Side(b).Valid() && symbols[locate].Side(buy).Valid();
      }
    }

    method StoreInSide(k: Key, lvl: FastLevel)
      requires SidesOk() && k.locate < |symbols|
      requires LevelOf(k).orders != 0 && (lvl.orders == 0 ==> lvl == EMPTY)
      modifies Sides(), Bitmaps()
      ensures SidesOk() && forall j :: LevelOf(j) == if j == k then lvl else old(LevelOf(j))
      ensures WindowsKept()
    {
      var s := symbols[k.locate].Side(k.buy);
      s.Store(k.price, lvl, None);
      forall l: nat, buy: bool | l < |symbols| && (l != k.locate || buy != k.buy)
        ensures symbols[l].Side(buy).Valid() && symbols[l].Side(buy).base == old(symbols[l].Side(buy).base)
        ensures forall p: Price :: symbols[l].Side(buy).LevelAt(p) == old(symbols[l].Side(buy).LevelAt(p))
      {
        assert old(symbols[l].Side(buy).Valid()) && symbols[l].Side(buy) != s
               && symbols[l].Side(buy).occupied != s.occupied;
      }
    }

    method GrowInSide(k: Key, size: Shares, idx: u32) returns (tail: u32)
      requires SidesOk() && k.locate < |symbols|
      modifies Sides(), Bitmaps()
      ensures SidesOk() && tail == old(LevelOf(k)).tail
      ensures forall j :: LevelOf(j) == if j == k then GrownLevel(old(LevelOf(k)), size, idx) else old(LevelOf(j))
      ensures WindowsKeptBut(k.locate, k.buy)
      ensures Base(k.locate, k.buy) == Anchored(Width(k.locate, k.buy), old(Base(k.locate, k.buy)), k.buy, k.price)
    {
      hide FastSide.ValidBut, FastSide.LevelAt, Anchored;
      var s := symbols[k.locate].Side(k.buy);
      BitmapsApart(k.locate, k.buy);
      var lvl := s.LevelFor(k.price);
      tail := lvl.tail;
      s.Store(k.price, GrownLevel(lvl, size, idx), if k.price in s.overflow then Some(k.price) else None);
      forall l: nat, buy: bool | l < |symbols| && (l != k.locate || buy != k.buy)
        ensures symbols[l].Side(buy).Valid() && symbols[l].Side(buy).base == old(symbols[l].Side(buy).base)
        ensures forall p: Price :: symbols[l].Side(buy).LevelAt(p) == old(symbols[l].Side(buy).LevelAt(p))
      {
        assert old(symbols[l].Side(buy).Valid()) && symbols[l].Side(buy) != s
               && symbols[l].Side(buy).occupied != s.occupied;
      }
    }

    method RecenterSide(locate: Locate, buy: bool) returns (have: bool, out: Price)
      requires SidesOk() && locate < |symbols|
      modifies Sides(), Bitmaps()
      ensures SidesOk() && forall j :: LevelOf(j) == old(LevelOf(j))
      ensures have ==> LevelOf(Key(locate, buy, out)).orders != 0
      ensures forall p: Price :: LevelOf(Key(locate, buy, p)).orders != 0 ==> have && AtLeastAsGood(buy, out, p)
      ensures WindowsKeptBut(locate, buy)
      ensures Base(locate, buy) == Followed(Width(locate, buy), old(Base(locate, buy)), buy, if have then Some(out)
              else None)
    {
      var s := symbols[locate].Side(buy);
      have, out := s.MaybeRecenter();
      forall l: nat, b: bool | l < |symbols| && (l != locate || b != buy)
        ensures symbols[l].Side(b).Valid() && symbols[l].Side(b).base == old(symbols[l].Side(b).base)
        ensures forall p: Price :: symbols[l].Side(b).LevelAt(p) == old(symbols[l].Side(b).LevelAt(p))
      {
        assert old(symbols[l].Side(b).Valid()) && symbols[l].Side(b) != s && symbols[l].Side(b).occupied != s.occupied;
      }
    }

    // ----- the table as one function -----

    lemma KeyInTable(k: Key)
      requires Valid() && levels(k).orders > 0
      ensures k.locate < |symbols|
    {
    }

    lemma SideLevels(locate: Locate, buy: bool)
      requires Valid() && locate < |symbols|
      ensures var s := symbols[locate].Side(buy);
              s.Valid() && forall p: Price :: levels(Key(locate, buy, p)) == s.LevelAt(p)
    {
      forall p: Price ensures levels(Key(locate, buy, p)) == symbols[locate].Side(buy).LevelAt(p) {
        assert levels(Key(locate, buy, p)) == LevelOf(Key(locate, buy, p));
      }
    }

    /** Reads the level of a key. */
    method FindLevel(k: Key) returns (lvl: FastLevel)
      requires Valid()
      ensures lvl == levels(k)
    {
      if k.locate >= |symbols| { return EMPTY; }
      lvl := symbols[k.locate].Side(k.buy).FindLevel(k.price);
      assert levels(k) == LevelOf(k);
    }

    /** Writes one level back; every other level of every symbol is left alone. */
    method StoreLevel(k: Key, lvl: FastLevel)
      requires Valid() && levels(k).orders != 0 && (lvl.orders == 0 ==> lvl == EMPTY)
      modifies Repr
      ensures Valid() && forall j :: levels(j) == if j == k then lvl else old(levels)(j)
      ensures origins == old(origins)
    {
      hide SidesOk, LevelOf, Base;
      KeyInTable(k);
      StoreInSide(k, lvl);
      ghost var before := levels;
      levels := j => if j == k then lvl else before(j);
    }

    /** Finds or creates the level of a key and links slot idx behind its tail, which is returned. */
    method GrowLevel(k: Key, size: Shares, idx: u32) returns (tail: u32)
      requires Valid() && k.locate < |symbols|
      modifies Repr
      ensures Valid() && tail == old(levels)(k).tail
      ensures forall j :: levels(j) == if j == k then GrownLevel(old(levels)(k), size, idx) else old(levels)(j)
      ensures forall l, b :: origins(l, b) ==
                var was := old(origins)(l, b);
                if l == k.locate && b == k.buy then Anchored(Width(l, b), was, b, k.price) else was
    {
      hide SidesOk, LevelOf, Base, Anchored;
      tail := GrowInSide(k, size, idx);
      ghost var o, to := origins, Anchored(Width(k.locate, k.buy), origins(k.locate, k.buy), k.buy, k.price);
      origins := (l: Locate, b: bool) => if l == k.locate && b == k.buy then to else o(l, b);
      ghost var before, after := levels, GrownLevel(levels(k), size, idx);
      levels := j => if j == k then after else before(j);
    }

    /** Best price of a side, whatever its window looks like. */
    method Best(locate: Locate, buy: bool) returns (have: bool, out: Price)
      requires Valid()
      ensures have ==> levels(Key(locate, buy, out)).orders != 0
      ensures forall p: Price :: levels(Key(locate, buy, p)).orders != 0 ==> have && AtLeastAsGood(buy, out, p)
    {
      if locate >= |symbols| {
        forall p: Price ensures levels(Key(locate, buy, p)).orders == 0 { OutsideTable(Key(locate, buy, p)); }
        return false, 0;
      }
      var s := symbols[locate].Side(buy);
      have, out := s.Best();
      assert levels(Key(locate, buy, out)) == LevelOf(Key(locate, buy, out));
      forall p: Price ensures levels(Key(locate, buy, p)) == s.LevelAt(p) {
        assert levels(Key(locate, buy, p)) == LevelOf(Key(locate, buy, p));
      }
    }

    lemma OutsideTable(k: Key)
      requires Valid() && k.locate >= |symbols|
      ensures levels(k) == EMPTY
    {
      assert levels(k) == LevelOf(k);
    }

    lemma NothingFollowed(locate: Locate, buy: bool)
      ensures Followed(Width(locate, buy), origins(locate, buy), buy, None) == origins(locate, buy)
    {
    }

    /** Moves a side's window if its best price has drifted: no level changes, and no other window. */
    method MaybeRecenter(locate: Locate, buy: bool) returns (ghost have: bool, ghost out: Price)
      requires Valid()
      modifies Repr
      ensures Valid() && levels == old(levels)
      ensures have ==> levels(Key(locate, buy, out)).orders != 0
      ensures forall p: Price :: levels(Key(locate, buy, p)).orders != 0 ==> have && AtLeastAsGood(buy, out, p)
      ensures forall l, b :: origins(l, b) ==
                var was := old(origins)(l, b);
                if l == locate && b == buy then Followed(Width(l, b), was, b, if have then Some(out) else None) else was
    {
      hide SidesOk, Followed;
      ghost var was := origins;
      if locate >= |symbols| {
        forall p: Price ensures levels(Key(locate, buy, p)).orders == 0 { OutsideTable(Key(locate, buy, p)); }
        NothingFollowed(locate, buy);
        return false, 0;
      }
      have, out := RecenterSide(locate, buy);
      ghost var to := Followed(Width(locate, buy), was(locate, buy), buy, if have then Some(out) else None);
      origins := (l: Locate, b: bool) => if l == locate && b == buy then to else was(l, b);
    }
  }
}
